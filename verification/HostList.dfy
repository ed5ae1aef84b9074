/** Parsing "host" and "host:port", and the list of hosts a client is configured with. */
module HostList {
  import opened Exceptions
  import opened Numerals
  import opened PhpValues

  datatype Endpoint = Endpoint(host: string, port: nat)

  const NUL := 0 as char

  /** The C string that a byte string is when handed on as a bare pointer. */
  function CString(s: string): (c: string)
    ensures |c| <= |s| && c <= s && NUL !in c && (c == s <==> NUL !in s)
  {
    if s == [] || s[0] == NUL then []
    else
      var rest := CString(s[1..]);
      assert rest == s[1..] ==> [s[0]] + rest == s;
      [s[0]] + rest
  }

  predicate IsSpace(c: char) {
    c == ' ' || 9 <= c as int <= 13
  }

  function SkipSpaces(s: string): string {
    if s != [] && IsSpace(s[0]) then SkipSpaces(s[1..]) else s
  }

  function LeadingDigits(s: string): (d: string)
    ensures AllDigits(d) && d <= s
  {
    if s != [] && IsDigit(s[0]) then [s[0]] + LeadingDigits(s[1..]) else []
  }

  /** strtol in base 10: optional space, sign and digits, clamped to a long; 0 without digits. */
  function Strtol(s: string): (n: int)
    ensures LONG_MIN <= n <= LONG_MAX
  {
    var t := SkipSpaces(s);
    var negative := t != [] && t[0] == '-';
    var digits := LeadingDigits(if t != [] && (t[0] == '-' || t[0] == '+') then t[1..] else t);
    var magnitude: int := NatValue(digits);
    var n := if negative then -magnitude else magnitude;
    if n > LONG_MAX then LONG_MAX else if n < LONG_MIN then LONG_MIN else n
  }

  predicate ValidPort(n: int) {
    0 < n <= 65535
  }

  /** The text before and behind the last colon, if there is one. */
  predicate SplitsAtLastColon(s: string, host: string, rest: string) {
    s == host + ":" + rest && ':' !in rest
  }

  function Split(s: string): (parts: Option<(string, string)>)
    ensures parts.Some? ==> SplitsAtLastColon(s, parts.value.0, parts.value.1)
    ensures parts.None? ==> ':' !in s
  {
    if s == [] then None
    else
      var front, last := s[..|s| - 1], s[|s| - 1];
      if last == ':' then Some((front, []))
      else match Split(front)
           case None => None
           case Some(parts) =>
             assert s == parts.0 + ":" + (parts.1 + [last]);
             Some((parts.0, parts.1 + [last]))
  }

  lemma {:induction false} SplitIsUnique(s: string, host: string, rest: string)
    requires SplitsAtLastColon(s, host, rest)
    ensures Split(s) == Some((host, rest))
  {
    assert s[|host|] == ':';
    var h, r := Split(s).value.0, Split(s).value.1;
    assert s[|h|] == ':';
    assert |host| <= |h| <= |host|;
    assert h == s[..|h|] == host && r == s[|h| + 1..] == rest;
  }

  /** What an entry denotes, given the port that entries without a valid one get. */
  function Parse(str: string, default: nat): Endpoint {
    match Split(str)
    case None => Endpoint(CString(str), default)
    case Some(parts) =>
      Endpoint(CString(parts.0), if ValidPort(Strtol(parts.1)) then Strtol(parts.1) else default)
  }

  /** "host" or "host:port": search backwards for the last colon. */
  method ParseHostPort(str: string, default: nat) returns (e: Endpoint)
    ensures e == Parse(str, default)
  {
    var colon: Option<nat> := None;
    var i := |str|;
    while i > 0 && colon.None?
      invariant 0 <= i <= |str|
      invariant match colon
                case None => ':' !in str[i..]
                case Some(k) => k < |str| && str[k] == ':' && ':' !in str[k + 1..]
      decreases i
    {
      if str[i - 1] == ':' {
        colon := Some(i - 1);
      }
      i := i - 1;
    }
    if colon.Some? {
      var host, rest := str[..colon.value], str[colon.value + 1..];
      SplitIsUnique(str, host, rest);
      var parsed := Strtol(rest);
      e := Endpoint(CString(host), if ValidPort(parsed) then parsed else default);
    } else {
      assert str[0..] == str;
      e := Endpoint(CString(str), default);
    }
  }

  function Print(host: string, port: nat): string {
    host + ":" + NatText(port)
  }

  lemma {:induction false} DigitsLead(s: string)
    requires AllDigits(s)
    ensures LeadingDigits(s) == s
  {
    if s != [] {
      DigitsLead(s[1..]);
    }
  }

  lemma {:induction false} StrtolOfText(n: nat)
    requires n <= LONG_MAX
    ensures Strtol(NatText(n)) == n
  {
    var s := NatText(n);
    assert IsDigit(s[0]);
    DigitsLead(s);
    NatValueOfText(n);
  }

  /** Print and parse: any host and any valid port come back, colons in the host included; a
      host with a NUL byte comes back cut there, so exactly hosts without one survive. */
  lemma {:induction false} ParseOfPrint(host: string, port: nat, default: nat)
    requires ValidPort(port)
    ensures Parse(Print(host, port), default) == Endpoint(CString(host), port)
    ensures Parse(Print(host, port), default) == Endpoint(host, port) <==> NUL !in host
  {
    assert ':' !in NatText(port);
    SplitIsUnique(Print(host, port), host, NatText(port));
    StrtolOfText(port);
  }

  /** An entry is taken whole, with the default port, iff it has neither a colon nor a NUL. */
  lemma {:induction false} WholeEntryIff(s: string, default: nat)
    ensures Parse(s, default).host == s <==> ':' !in s && NUL !in s
    ensures ':' !in s ==> Parse(s, default).port == default
  {
    var parts := Split(s);
    if parts.Some? {
      assert |s| == |parts.value.0| + 1 + |parts.value.1|;
      assert s[|parts.value.0|] == ':';
    }
  }

  /** A port number that is out of range, or no number at all, is silently replaced. */
  lemma {:induction false} PortReplacedIff(host: string, rest: string, default: nat)
    requires ':' !in rest && default != Strtol(rest)
    ensures Parse(host + ":" + rest, default).port == default <==> !ValidPort(Strtol(rest))
  {
    SplitIsUnique(host + ":" + rest, host, rest);
  }

  /** What a list of entries denotes: the first is parsed with the client's port as default, all
      others with the port that the first one got. */
  function HostImage(list: seq<string>, clientPort: nat): (servers: seq<Endpoint>)
    ensures |servers| == |list|
  {
    seq(|list|, k requires 0 <= k < |list| =>
      if k == 0 then Parse(list[0], clientPort) else Parse(list[k], Parse(list[0], clientPort).port))
  }

  /** Printed servers come back, all of them and in order, whatever the client's port. */
  lemma {:induction false} HostImageOfPrint(servers: seq<Endpoint>, clientPort: nat)
    requires forall k :: 0 <= k < |servers| ==> ValidPort(servers[k].port) && NUL !in servers[k].host
    ensures var list := seq(|servers|, k requires 0 <= k < |servers| => Print(servers[k].host, servers[k].port));
            HostImage(list, clientPort) == servers
  {
    var list := seq(|servers|, k requires 0 <= k < |servers| => Print(servers[k].host, servers[k].port));
    forall k | 0 <= k < |servers| ensures HostImage(list, clientPort)[k] == servers[k] {
      var default := if k == 0 then clientPort else Parse(list[0], clientPort).port;
      ParseOfPrint(servers[k].host, servers[k].port, default);
    }
  }

  /** A later entry without a port gets the client's port iff the first entry names that port,
      or names none. */
  lemma {:induction false} DefaultIsClientPortIff(list: seq<string>, clientPort: nat, k: nat)
    requires 0 < k < |list| && ':' !in list[k]
    ensures HostImage(list, clientPort)[k].port == clientPort <==>
            match Split(list[0])
            case None => true
            case Some(parts) => !ValidPort(Strtol(parts.1)) || Strtol(parts.1) == clientPort
  {
    WholeEntryIff(list[k], Parse(list[0], clientPort).port);
  }

  lemma {:induction false} TextOf1234()
    ensures NatText(1234) == ['1', '2', '3', '4']
  {
    assert NatText(1) == ['1'] && NatText(12) == ['1', '2'];
    assert NatText(123) == ['1', '2', '3'];
  }

  lemma {:induction false} PlainHost(c: char)
    requires c != NUL
    ensures CString([c]) == [c] && NUL !in [c]
  {
    assert [c][1..] == [];
  }

  /** The failing case: the client's port is 9000, the second entry gets the first one's. */
  lemma {:induction false} LaterEntryMissesClientPort()
    ensures HostImage(["a:1234", "b"], 9000) == [Endpoint("a", 1234), Endpoint("b", 1234)]
  {
    TextOf1234();
    PlainHost('a');
    PlainHost('b');
    assert Print("a", 1234) == "a:1234";
    ParseOfPrint("a", 1234, 9000);
    assert Split("b").None?;
  }

  /** Which numbers are ports: behind the colon 1 to 65535 stand for themselves, and every other number
      up to the largest long for the default. */
  lemma {:induction false} PortRange(host: string, n: nat, default: nat)
    requires n <= LONG_MAX
    ensures Parse(host + ":" + NatText(n), default).port == if n == 0 || n > 65535 then default else n
  {
    assert ':' !in NatText(n);
    SplitIsUnique(host + ":" + NatText(n), host, NatText(n));
    StrtolOfText(n);
  }

  lemma {:induction false} DigitsStop(digits: string, rest: string)
    requires AllDigits(digits) && (rest == [] || !IsDigit(rest[0]))
    ensures LeadingDigits(digits + rest) == digits
  {
    if digits == [] {
      assert digits + rest == rest;
    } else {
      assert (digits + rest)[1..] == digits[1..] + rest;
      DigitsStop(digits[1..], rest);
    }
  }

  lemma {:induction false} SpacesSkipped(spaces: nat, text: string)
    ensures SkipSpaces(seq(spaces, _ => ' ') + text) == SkipSpaces(text)
    decreases spaces
  {
    var s := seq(spaces, _ => ' ') + text;
    if spaces == 0 {
      assert s == text;
    } else {
      SpacesSkipped(spaces - 1, text);
      assert s[0] == ' ' && s[1..] == seq(spaces - 1, _ => ' ') + text;
    }
  }

  function Clamped(n: int): int {
    if n > LONG_MAX then LONG_MAX else if n < LONG_MIN then LONG_MIN else n
  }

  /** What strtol makes of spaces, digits and whatever follows them: the number of the digits, as far
      as a long goes. A sign before the digits counts; without digits the number is 0. */
  lemma {:induction false} StrtolReads(spaces: nat, digits: string, rest: string)
    requires digits != [] && AllDigits(digits) && (rest == [] || !IsDigit(rest[0]))
    ensures Strtol(seq(spaces, _ => ' ') + (digits + rest)) == Clamped(NatValue(digits))
    ensures Strtol(seq(spaces, _ => ' ') + ("+" + (digits + rest))) == Clamped(NatValue(digits))
    ensures Strtol(seq(spaces, _ => ' ') + ("-" + (digits + rest))) == Clamped(0 - NatValue(digits))
  {
    hide NatValue, SkipSpaces, LeadingDigits;
    var text := digits + rest;
    DigitsStop(digits, rest);
    assert IsDigit(text[0]);
    UnspacedIsKept(text);
    UnspacedIsKept("+" + text);
    UnspacedIsKept("-" + text);
    SpacesSkipped(spaces, text);
    SpacesSkipped(spaces, "+" + text);
    SpacesSkipped(spaces, "-" + text);
    assert ("+" + text)[1..] == text && ("-" + text)[1..] == text;
  }

  lemma {:induction false} UnspacedIsKept(s: string)
    requires s == [] || !IsSpace(s[0])
    ensures SkipSpaces(s) == s
  {
  }

  lemma {:induction false} NoDigitsIsZero(spaces: nat, rest: string)
    requires rest == [] || (!IsDigit(rest[0]) && !IsSpace(rest[0]) && rest[0] != '+' && rest[0] != '-')
    ensures Strtol(seq(spaces, _ => ' ') + rest) == 0
  {
    SpacesSkipped(spaces, rest);
    UnspacedIsKept(rest);
  }
}
