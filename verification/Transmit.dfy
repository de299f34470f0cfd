/**
The retry machine of `dns_transmit.c`: a question goes to each server over UDP up to four times
around, then over TCP, one step per event. Sockets may do anything at any time.
*/
module Transmit {
  import opened Bits
  import opened Bytes
  import opened Names
  import opened Packet
  import opened RecordOrder
  import opened Wrappers

  const V6ANY: seq<byte> := [0, 0, 0, 0, 0, 0, 0, 0, 0, 0, 0, 0, 0, 0, 0, 0]

  /** The outcome of something outside: a socket call, an allocation, the clock. */
  method Happens() returns (yes: bool)
  {
    yes := *;
  }

  method Random() returns (b: byte)
  {
    b := *;
  }

  /** An attempt to reach a server: over UDP in round `loop`, or over TCP. */
  datatype Attempt = Udp(loop: nat, server: nat) | Tcp(server: nat)
  {
    /** The order in which attempts are made. */
    function Turn(): int { if Udp? then loop * 16 + server else 64 + server }
  }

  ghost predicate Ordered(log: seq<Attempt>)
  {
    && (forall i :: 0 <= i < |log| ==> log[i].server < 16 && (log[i].Udp? ==> log[i].loop < 4))
    && forall i, j :: 0 <= i < j < |log| ==> log[i].Turn() < log[j].Turn()
  }

  /** At most 64 attempts over UDP and 16 over TCP, and none over UDP after one over TCP. */
  lemma {:induction false} AttemptsBounded(log: seq<Attempt>)
    requires Ordered(log)
    ensures exists n :: 0 <= n <= |log| && n <= 64 && |log| - n <= 16 && UdpThenTcp(log, n)
  {
    if log == [] {
      assert UdpThenTcp(log, 0);
    } else {
      var k := |log| - 1;
      var t := log[..k];
      AttemptsBounded(t);
      var n :| 0 <= n <= |t| && n <= 64 && |t| - n <= 16 && UdpThenTcp(t, n);
      TurnAtLeast(log, k);
      if log[k].Udp? {
        assert forall i :: 0 <= i < k ==> log[i].Turn() < log[k].Turn();
        assert UdpThenTcp(log, k + 1);
      } else {
        TcpTurn(log, n, k);
        assert UdpThenTcp(log, n);
      }
    }
  }

  /** The first `n` attempts are over UDP, the others over TCP. */
  ghost predicate UdpThenTcp(log: seq<Attempt>, n: nat)
  {
    n <= |log| && (forall i :: 0 <= i < n ==> log[i].Udp?) && forall i :: n <= i < |log| ==> log[i].Tcp?
  }

  lemma {:induction false} TurnAtLeast(log: seq<Attempt>, k: nat)
    requires Ordered(log) && k < |log|
    ensures log[k].Turn() >= k
  {
    if k > 0 { TurnAtLeast(log, k - 1); }
  }

  lemma {:induction false} TcpTurn(log: seq<Attempt>, n: nat, k: nat)
    requires Ordered(log) && n <= k < |log| && forall i :: n <= i <= k ==> log[i].Tcp?
    ensures log[k].server >= k - n
    decreases k
  {
    if k > n {
      TcpTurn(log, n, k - 1);
      assert log[k - 1].Turn() < log[k].Turn();
    }
  }

  // ----- packets

  /** The packet answers the question: identification, one question, its name, type and class IN. */
  ghost predicate Answers(buf: seq<byte>, query: seq<byte>, qtype: seq<byte>)
    requires |query| >= 14 + 4
  {
    && |buf| >= 12 && buf[..2] == query[2..4] && buf[4] == 0 && buf[5] == 1
    && NameAt(buf, 12) != [] && Equal(NameAt(buf, 12), query[14..|query| - 4])
    && var p := SkipName(buf, 12);
       p + 4 <= |buf| && buf[p..p + 2] == qtype && buf[p + 2..p + 4] == [0, 1]
  }

  /** `irrelevant`, lines 33-54. */
  method Irrelevant(buf: seq<byte>, query: seq<byte>, qtype: seq<byte>) returns (r: bool)
    requires |query| >= 18 && |qtype| == 2
    ensures !r <==> Answers(buf, query, qtype)
  {
    hide SkipName, NameAt;
    var pos, out := Copy(buf, 0, 12);
    if pos == 0 { return true; }
    assert out[..2] == buf[..2] && out[4] == buf[4] && out[5] == buf[5];
    if out[..2] != query[2..4] { return true; }
    if out[4] != 0 { return true; }
    if out[5] != 1 { return true; }
    var dn;
    pos, dn := NameHere(buf, 12);
    if pos == 0 { return true; }
    if !Equal(dn, query[14..|query| - 4]) { return true; }
    var p := pos;
    pos, out := Copy(buf, p, 4);
    if pos == 0 { return true; }
    assert out[..2] == buf[p..p + 2] && out[2..] == buf[p + 2..p + 4];
    if out[..2] != qtype { return true; }
    if out[2..] != [0, 1] { return true; }
    return false;
  }

  /** `serverwantstcp`, lines 12-19. */
  predicate WantsTcp(buf: seq<byte>) { |buf| < 12 || buf[2] / 2 % 2 == 1 }

  /** `serverfailed`, lines 21-31. */
  predicate Failed(buf: seq<byte>) { |buf| < 12 || buf[3] % 16 !in {0, 3} }

  class Transmission {
    var socket: bool
    var query: Option<seq<byte>>
    var packet: Option<seq<byte>>
    var packetlen: nat
    var tcpstate: nat
    var udploop: nat
    var curserver: nat
    var pos: nat
    var servers: seq<seq<byte>>
    var qtype: seq<byte>
    ghost var log: seq<Attempt>

    /** What holds while a question is under way. */
    ghost predicate Active()
      reads this
    {
      && socket && Asking() && curserver < 16 && servers[curserver] != V6ANY && log != []
      && log[|log| - 1] == (if tcpstate == 0 then Udp(udploop, curserver) else Tcp(curserver))
      && tcpstate <= 5 && (tcpstate == 0 ==> udploop < 4) && (tcpstate == 5 <==> packet.Some?)
      && (tcpstate == 4 ==> packetlen < 256)
      && (tcpstate == 5 ==> |packet.value| == packetlen && pos <= packetlen)
      && (tcpstate == 2 ==> pos < |query.value|)
    }

    /** The question and the attempts so far. */
    ghost predicate Asking()
      reads this
    {
      query.Some? && |query.value| >= 18 && |qtype| == 2 && |servers| == 16 && Ordered(log)
    }

    ghost predicate Freed()
      reads this
    {
      !socket && query.None? && packet.None?
    }

    /** The next attempt is after all attempts so far. */
    ghost predicate Ahead(next: int)
      reads this
    {
      forall i :: 0 <= i < |log| ==> log[i].Turn() < next
    }

    /** `dns_transmit_free`, lines 77-82. */
    method Free()
      modifies `socket, `query, `packet
      ensures Freed()
    {
      query, socket, packet := None, false, None;
    }

    /** Lines 108-113 and 159-164: a fresh identification and a socket; false if there is none. */
    method Open(attempt: Attempt) returns (ok: bool)
      requires Asking() && Ahead(attempt.Turn()) && attempt.server < 16 && (attempt.Udp? ==> attempt.loop < 4)
      modifies `socket, `query, `packet, `log
      ensures log == old(log) + [attempt] && Ordered(log)
      ensures if ok then socket && packet == old(packet) && query.Some? && |query.value| == |old(query).value|
                         && query.value[14..] == old(query).value[14..] else Freed()
    {
      var a := Random();
      var b := Random();
      query := Some(query.value[2 := a][3 := b]);
      log := log + [attempt];
      ok := Happens();
      if !ok { Free(); return; }
      socket := true;
      ok := Happens();
      if !ok { Free(); }
    }

    /** `thisudp`, lines 98-134. */
    method ThisUdp() returns (r: int)
      requires Asking() && packet.None? && udploop < 4 && curserver <= 16 && Ahead(udploop * 16 + curserver)
      modifies this
      ensures r in {-1, 0} && (r == 0 ==> Active() && tcpstate == 0 && Kept(old(query), query) && |log| > |old(log)|)
              && (r == -1 ==> Freed()) && Ordered(log)
      ensures old(log) <= log && servers == old(servers) && qtype == old(qtype)
    {
      hide Ordered;
      socket := false;
      while udploop < 4
        invariant Asking() && packet.None? && udploop <= 4 && curserver <= 16
        invariant query.Some? && Kept(old(query), query)
        invariant udploop < 4 ==> Ahead(udploop * 16 + curserver)
        invariant old(log) <= log && servers == old(servers) && qtype == old(qtype)
        decreases 4 - udploop
      {
        ghost var round := udploop;
        while curserver < 16
          invariant Asking() && packet.None? && udploop == round && curserver <= 16
          invariant query.Some? && Kept(old(query), query)
          invariant Ahead(udploop * 16 + curserver)
          invariant old(log) <= log && servers == old(servers) && qtype == old(qtype)
          decreases 16 - curserver
        {
          if servers[curserver] != V6ANY {
            r := TryUdp();
            if r != 1 { return; }
          }
          AheadMore(udploop * 16 + curserver);
          curserver := curserver + 1;
        }
        udploop := udploop + 1;
        curserver := 0;
      }
      Free();
      return -1;
    }

    /** Lines 108-125: 1 if the server cannot be reached. */
    method TryUdp() returns (r: int)
      requires Asking() && packet.None? && udploop < 4 && curserver < 16 && servers[curserver] != V6ANY
               && Ahead(udploop * 16 + curserver)
      modifies `socket, `query, `packet, `log, `tcpstate
      ensures r in {-1, 0, 1} && Ordered(log) && log == old(log) + [Udp(udploop, curserver)]
      ensures r == 0 ==> Active() && tcpstate == 0 && Kept(old(query), query)
      ensures r == 1 ==> Asking() && packet.None? && Kept(old(query), query) && Ahead(udploop * 16 + curserver + 1)
      ensures r == -1 ==> Freed()
    {
      hide Ordered;
      var ok := Open(Udp(udploop, curserver));
      if !ok { return -1; }
      var sent := Happens();
      if sent {
        tcpstate := 0;
        return 0;
      }
      socket := false;
      return 1;
    }

    /** `thistcp`, lines 148-184. */
    method ThisTcp() returns (r: int)
      requires Asking() && curserver <= 16 && Ahead(64 + curserver)
      modifies this
      ensures r in {-1, 0} && (r == 0 ==> Active() && tcpstate in {1, 2} && Kept(old(query), query)
                                          && |log| > |old(log)|) && (r == -1 ==> Freed()) && Ordered(log)
      ensures old(log) <= log && servers == old(servers) && qtype == old(qtype)
    {
      hide Ordered;
      socket := false;
      packet := None;
      while curserver < 16
        invariant Asking() && packet.None? && curserver <= 16
        invariant query.Some? && Kept(old(query), query)
        invariant Ahead(64 + curserver)
        invariant old(log) <= log && servers == old(servers) && qtype == old(qtype)
        decreases 16 - curserver
      {
        if servers[curserver] != V6ANY {
          r := TryTcp();
          if r != 1 { return; }
        }
        AheadMore(64 + curserver);
        curserver := curserver + 1;
      }
      Free();
      return -1;
    }

    lemma AheadMore(next: int)
      requires Ahead(next) || Ahead(next + 1)
      ensures Ahead(next + 1)
    {
    }

    /** Lines 159-179: 1 if the server cannot be reached. */
    method TryTcp() returns (r: int)
      requires Asking() && packet.None? && curserver < 16 && servers[curserver] != V6ANY && Ahead(64 + curserver)
      modifies `socket, `query, `packet, `log, `pos, `tcpstate
      ensures r in {-1, 0, 1} && Ordered(log) && log == old(log) + [Tcp(curserver)]
      ensures r == 0 ==> Active() && tcpstate in {1, 2} && Kept(old(query), query)
      ensures r == 1 ==> Asking() && packet.None? && Kept(old(query), query) && Ahead(64 + curserver + 1)
      ensures r == -1 ==> Freed()
    {
      hide Ordered;
      var ok := Open(Tcp(curserver));
      if !ok { return -1; }
      var connected := Happens();
      if connected {
        pos, tcpstate := 0, 2;
        return 0;
      }
      var inprogress := Happens();
      if inprogress {
        tcpstate := 1;
        return 0;
      }
      socket := false;
      return 1;
    }

    /** The last attempt is where the machine is. */
    lemma LastTurn()
      requires Active()
      ensures Ahead((if tcpstate == 0 then udploop * 16 + curserver else 64 + curserver) + 1)
              && (tcpstate == 0 ==> Ahead(64))
    {
      var n := |log| - 1;
      forall i | 0 <= i < |log| ensures log[i].Turn() <= log[n].Turn() {
        if i < n { assert log[i].Turn() < log[n].Turn(); }
      }
    }

    /** `nextudp` and `nexttcp`, lines 142-146 and 192-196. */
    method Next() returns (r: int)
      requires Active()
      modifies this
      ensures r in {-1, 0} && (r == 0 ==> Active() && Kept(old(query), query)) && (r == -1 ==> Freed()) && Ordered(log)
      ensures old(log) <= log && servers == old(servers) && qtype == old(qtype)
      ensures r == 0 && old(tcpstate) > 0 ==> tcpstate > 0
      ensures r == 0 ==> |log| > |old(log)|
    {
      LastTurn();
      curserver := curserver + 1;
      if tcpstate == 0 {
        r := ThisUdp();
      } else {
        r := ThisTcp();
      }
    }

    /** `dns_transmit_get`, lines 240-356, on one event; `data` is what arrives on the socket, if anything. */
    method Get(revents: bool, data: Option<seq<byte>>) returns (r: int)
      requires Active()
      modifies this
      ensures r in {-1, 0, 1} && Ordered(log) && old(log) <= log && servers == old(servers) && qtype == old(qtype)
      ensures r == 0 ==> Active() && Kept(old(query), query) && (old(tcpstate) > 0 ==> tcpstate > 0)
      ensures r == -1 ==> Freed()
      ensures r == 1 ==> !socket && query.None? && packet.Some? && log == old(log)
      ensures r == 1 ==> Answers(packet.value, old(query).value, qtype) && !WantsTcp(packet.value)
                         && !Failed(packet.value)
      ensures r == 1 ==> packet.value[3] % 16 in {0, 3}
    {
      hide Answers, Ordered;
      if !revents {
        var early := Happens();
        if early { return 0; }
        r := Next();
        return;
      }
      if tcpstate == 0 {
        r := GetUdp(data);
        return;
      }
      if tcpstate == 1 {
        var connected := Happens();
        if !connected {
          r := Next();
          return;
        }
        pos, tcpstate := 0, 2;
        return 0;
      }
      if tcpstate == 2 {
        var n: nat := if data.Some? then |data.value| else 0;
        if n == 0 || n > |query.value| - pos {
          r := Next();
          return;
        }
        pos := pos + n;
        if pos == |query.value| { tcpstate := 3; }
        return 0;
      }
      if data.None? || data.value == [] {
        r := Next();
        return;
      }
      r := GetTcp(data.value);
    }

    /** Lines 257-283: a datagram of at most 4096 bytes. */
    method GetUdp(data: Option<seq<byte>>) returns (r: int)
      requires Active() && tcpstate == 0
      modifies this
      ensures r in {-1, 0, 1} && Ordered(log) && old(log) <= log && servers == old(servers) && qtype == old(qtype)
      ensures r == 0 ==> Active() && Kept(old(query), query)
      ensures r == -1 ==> Freed()
      ensures r == 1 ==> !socket && query.None? && packet == data && log == old(log) && packet.Some?
      ensures r == 1 ==> Answers(packet.value, old(query).value, qtype) && !WantsTcp(packet.value)
                         && !Failed(packet.value)
    {
      hide Answers, Ordered;
      if data.None? || data.value == [] {
        var refused := Happens();
        if refused && udploop == 2 { return 0; }
        r := Next();
        return;
      }
      var buf := data.value;
      if |buf| + 1 > 4097 { return 0; }
      var irrelevant := Irrelevant(buf, query.value, qtype);
      if irrelevant { return 0; }
      if WantsTcp(buf) {
        LastTurn();
        curserver := 0;
        r := ThisTcp();
        return;
      }
      if Failed(buf) {
        if udploop == 2 { return 0; }
        r := Next();
        return;
      }
      socket := false;
      packetlen := |buf|;
      var ok := Happens();
      if !ok {
        Free();
        return -1;
      }
      packet := Some(buf);
      query := None;
      return 1;
    }

    /** Lines 308-353: the length of the reply, then the reply, piece by piece. */
    method GetTcp(data: seq<byte>) returns (r: int)
      requires Active() && tcpstate in {3, 4, 5} && data != []
      modifies this
      ensures r in {-1, 0, 1} && Ordered(log) && old(log) <= log && servers == old(servers) && qtype == old(qtype)
      ensures r == 0 ==> Active() && Kept(old(query), query) && tcpstate > 0
      ensures r == -1 ==> Freed()
      ensures r == 1 ==> !socket && query.None? && packet.Some? && log == old(log)
      ensures r == 1 ==> Answers(packet.value, old(query).value, qtype) && !WantsTcp(packet.value)
                         && !Failed(packet.value)
    {
      hide Answers, Ordered;
      if tcpstate == 3 {
        packetlen := data[0] as int;
        tcpstate := 4;
        return 0;
      }
      if tcpstate == 4 {
        packetlen := packetlen * 256 + data[0];
        tcpstate, pos := 5, 0;
        var ok := Happens();
        if !ok {
          Free();
          return -1;
        }
        packet := Some(Zeros(packetlen));
        return 0;
      }
      if |data| > packetlen - pos {
        r := Next();
        return;
      }
      packet := Some(Splice(packet.value, pos, data));
      pos := pos + |data|;
      if pos < packetlen { return 0; }
      var buf := packet.value;
      var irrelevant := Irrelevant(buf, query.value, qtype);
      if irrelevant || WantsTcp(buf) || Failed(buf) {
        r := Next();
        return;
      }
      socket := false;
      query := None;
      return 1;
    }

    /** `dns_transmit_start`, lines 198-221. */
    method Start(addrs: seq<seq<byte>>, recursive: bool, q: seq<byte>, qt: seq<byte>) returns (r: int)
      requires |addrs| == 16 && IsName(q) && |qt| == 2
      modifies this
      ensures r in {-1, 0} && (r == 0 ==> Active() && query.value[14..] == q + qt + [0, 1] && qtype == qt)
              && (r == -1 ==> Freed()) && Ordered(log)
      ensures r == 0 && |q| + 16 > 512 ==> tcpstate > 0
    {
      hide IsName;
      Free();
      log := [];
      var len := |q|;
      assert len >= 1 by { NameSome(q); }
      var ok := Happens();
      if !ok { return -1; }
      query := Some([(len + 16) / 256 % 256, (len + 16) % 256] + [0, 0, if recursive then 1
                                                                        else 0, 0, 0, 1, 0, 0, 0, 0, 0,
                                                                             0] + q + qt + [0, 1]);
      assert query.value[14..] == q + qt + [0, 1];
      qtype, servers := qt, addrs;
      udploop := if recursive then 1 else 0;
      curserver := 0;
      if len + 16 > 512 || qt == [0, 255] {
        r := ThisTcp();
      } else {
        r := ThisUdp();
      }
    }
  }

  lemma NameSome(q: seq<byte>)
    requires IsName(q)
    ensures |q| >= 1
  {
  }

  /** The question is the same but for its identification. */
  ghost predicate Kept(a: Option<seq<byte>>, b: Option<seq<byte>>)
  {
    a.Some? && b.Some? && |a.value| == |b.value| && |a.value| >= 14 && a.value[14..] == b.value[14..]
  }
}
