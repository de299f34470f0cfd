/**
The TXT reply of DNSCurve: the server (`curvedns/dnscurve.c`) splits nonce and box into strings of
at most 255 bytes; the client (`dq/dns_transmit.c`) joins them in place at the front of its buffer.
*/
module CurveReply {
  import opened Bits
  import opened Bytes
  import opened Names
  import opened Wrappers

  /** The strings of a TXT record that holds `p`. */
  function Split(p: seq<byte>): (d: seq<byte>)
    ensures |d| == |p| + (|p| + 254) / 255
  {
    if p == [] then []
    else if |p| < 255 then [|p|] + p
    else [255] + p[..255] + Split(p[255..])
  }

  /**
  The strings of a TXT record put together, with `t` bytes of the current string to come; none if the last one
  is cut short.
  */
  function Join(t: nat, d: seq<byte>): (r: Option<seq<byte>>)
    ensures r.Some? ==> |r.value| <= |d|
    decreases |d|
  {
    if d == [] then (if t == 0 then Some([]) else None)
    else if t == 0 then Join(d[0] as int, d[1..])
    else After([d[0]], Join(t - 1, d[1..]))
  }

  function After(s: seq<byte>, r: Option<seq<byte>>): (r': Option<seq<byte>>)
    ensures r.Some? <==> r'.Some?
  {
    if r.None? then None else Some(s + r.value)
  }

  lemma {:induction false} JoinString(s: seq<byte>, d: seq<byte>)
    ensures Join(|s|, s + d) == After(s, Join(0, d))
  {
    if s == [] {
      assert s + d == d;
      if Join(0, d).Some? { assert [] + Join(0, d).value == Join(0, d).value; }
    } else {
      JoinString(s[1..], d);
      assert (s + d)[1..] == s[1..] + d;
      AfterAfter(s, Join(0, d));
    }
  }

  lemma AfterAfter(s: seq<byte>, r: Option<seq<byte>>)
    requires s != []
    ensures After([s[0]], After(s[1..], r)) == After(s, r)
  {
    if r.Some? { assert [s[0]] + (s[1..] + r.value) == s + r.value; }
  }

  /** Splitting is undone by joining. */
  lemma {:induction false} JoinSplit(p: seq<byte>)
    ensures Join(0, Split(p)) == Some(p)
  {
    if p == [] {
    } else if |p| < 255 {
      JoinString(p, []);
      assert p + [] == p;
      assert Split(p)[1..] == p;
    } else {
      JoinSplit(p[255..]);
      JoinString(p[..255], Split(p[255..]));
      assert Split(p)[1..] == p[..255] + Split(p[255..]);
      assert p == p[..255] + p[255..];
    }
  }

  /** Lines 521-535 of `dnscurve_reply_txt_query`: the strings are written from `start` on. */
  method WriteStrings(buffer: array<byte>, start: nat, p: seq<byte>) returns (pos: nat)
    requires start + |p| + (|p| + 254) / 255 <= buffer.Length
    modifies buffer
    ensures pos == start + |Split(p)| && buffer[..] == Splice(old(buffer[..]), start, Split(p))
  {
    hide Split, Splice;
    ghost var b := buffer[..];
    ghost var done: seq<byte> := [];
    pos := start;
    var last: nat, todo: nat := 0, |p|;
    assert p[0..] == p;
    SpliceNothing(b, start);
    while todo > 0
      invariant last + todo == |p| && pos == start + |done| && done + Split(p[last..]) == Split(p)
      invariant pos <= buffer.Length && buffer[..] == Splice(b, start, done)
    {
      var size := if todo < 255 then todo else 255;
      SplitHead(p, last, size, done);
      WriteString(buffer, pos, p[last..last + size]);
      SpliceSplice(b, start, done, [size] + p[last..last + size]);
      assert done + ([size] + p[last..last + size]) == done + [size] + p[last..last + size];
      done := done + [size] + p[last..last + size];
      pos := pos + size + 1;
      last := last + size;
      todo := todo - size;
    }
    SplitDone(p, last, done);
  }

  /** Lines 529-531. */
  method WriteString(buffer: array<byte>, pos: nat, s: seq<byte>)
    requires |s| < 256 && pos + 1 + |s| <= buffer.Length
    modifies buffer
    ensures buffer[..] == Splice(old(buffer[..]), pos, [|s|] + s)
  {
    ghost var b := buffer[..];
    buffer[pos] := |s|;
    assert buffer[..] == Splice(b, pos, [|s|]);
    CopyBytes(buffer, pos + 1, s);
    SpliceSplice(b, pos, [|s|], s);
  }

  lemma SpliceNothing(b: seq<byte>, at: nat)
    requires at <= |b|
    ensures Splice(b, at, []) == b
  {
  }

  lemma SplitDone(p: seq<byte>, last: nat, done: seq<byte>)
    requires last == |p|
    ensures done + Split(p[last..]) == done
  {
    assert p[last..] == [];
  }

  lemma SplitHead(p: seq<byte>, last: nat, size: nat, done: seq<byte>)
    requires last < |p| && size == if |p| - last < 255 then |p| - last else 255
    ensures done + Split(p[last..]) == done + [size] + p[last..last + size] + Split(p[last + size..])
    ensures |Split(p[last..])| >= 1 + size
  {
    var q := p[last..];
    assert q[..size] == p[last..last + size] && q[size..] == p[last + size..];
    if |q| < 255 { assert q[..size] == q && Split([]) == []; }
    assert Split(q) == [size] + q[..size] + Split(q[size..]);
  }

  /** Lines 171-183 of `dq/dns_transmit.c`: the strings at `pos` are joined at byte 4 of the same buffer. */
  method JoinStrings(buf: array<byte>, pos: nat, datalen: nat) returns (ok: bool, j: nat)
    requires 4 <= pos && pos + datalen <= buf.Length
    modifies buf
    ensures ok <==> Join(0, old(buf[pos..pos + datalen])).Some?
    ensures 4 <= j <= 4 + datalen && (ok ==> buf[4..j] == Join(0, old(buf[pos..pos + datalen])).value)
  {
    ghost var d := buf[pos..pos + datalen];
    var txtlen: nat;
    j, txtlen := 4, 0;
    var i: nat := 0;
    assert buf[4..4] == [] && d[0..] == d;
    AfterNothing(Join(0, d));
    while i < datalen
      invariant i <= datalen && 4 <= j <= 4 + i
      invariant forall y :: i <= y < datalen ==> buf[pos + y] == d[y]
      invariant Join(0, d) == After(buf[4..j], Join(txtlen, d[i..]))
    {
      var ch := buf[pos + i];
      assert d[i..][0] == ch && d[i..][1..] == d[i + 1..];
      if txtlen == 0 {
        txtlen := ch as int;
      } else {
        txtlen := txtlen - 1;
        ghost var was := buf[4..j];
        buf[j] := ch;
        assert buf[4..j + 1] == was + [ch];
        AfterOne(was, ch, Join(txtlen, d[i + 1..]));
        j := j + 1;
      }
      i := i + 1;
    }
    assert d[datalen..] == [];
    assert buf[4..j] + [] == buf[4..j];
    ok := txtlen == 0;
  }

  lemma AfterNothing(r: Option<seq<byte>>)
    ensures After([], r) == r
  {
    if r.Some? { assert [] + r.value == r.value; }
  }

  lemma AfterOne(s: seq<byte>, b: byte, r: Option<seq<byte>>)
    ensures After(s, After([b], r)) == After(s + [b], r)
  {
    if r.Some? { assert s + ([b] + r.value) == s + [b] + r.value; }
  }

  // ----- the whole reply

  const TXT_RECORD: seq<byte> := [0, 16, 0, 1, 192, 12, 0, 16, 0, 1, 0, 0, 0, 0]

  function Be(n: nat): (s: seq<byte>)
    ensures |s| == 2
  {
    [n / 256 % 256, n % 256]
  }

  /** The server's packet up to the data: header, question, and the start of the answer. */
  function ReplyHead(id: seq<byte>, rd: bool, qname: seq<byte>, n: nat): (h: seq<byte>)
    requires |id| == 2
    ensures |h| == 28 + |qname|
  {
    id + [if rd then 133 else 132, 0, 0, 1, 0, 1, 0, 0, 0, 0] + qname + TXT_RECORD + Be(n)
  }

  /** Lines 479-536 of `dnscurve_reply_txt_query`: the packet is built, if there is room. */
  method ServerReply(buffer: array<byte>, id: seq<byte>, rd: bool, qname: seq<byte>, p: seq<byte>)
    returns (ok: bool, size: nat)
    requires |id| == 2 && buffer.Length >= 12
    modifies buffer
    ensures ok <==> buffer.Length >= 28 + |qname| + |Split(p)|
    ensures ok ==> size == 28 + |qname| + |Split(p)|
                   && buffer[..size] == ReplyHead(id, rd, qname, |Split(p)|) + Split(p)
  {
    hide Split, ReplyHead;
    size := 0;
    if buffer.Length < 12 + |qname| || buffer.Length < 26 + |qname| { return false, 0; }
    var rrdatalen := |p| + (|p| + 254) / 255;
    if buffer.Length < 26 + |qname| + 2 + rrdatalen { return false, 0; }
    Lay(buffer, ReplyHead(id, rd, qname, rrdatalen), p);
    size := 28 + |qname| + rrdatalen;
    ok := true;
  }

  /** A head, and the strings after it. */
  method Lay(buffer: array<byte>, head: seq<byte>, p: seq<byte>)
    requires |head| + |p| + (|p| + 254) / 255 <= buffer.Length
    modifies buffer
    ensures buffer[..|head| + |Split(p)|] == head + Split(p)
  {
    hide Split, Splice;
    CopyBytes(buffer, 0, head);
    ghost var b := buffer[..];
    assert b[0..|head|] == b[..|head|];
    var end := WriteStrings(buffer, |head|, p);
    HeadThenData(b, |head|, Split(p), buffer[..]);
  }

  lemma HeadThenData(b: seq<byte>, at: nat, d: seq<byte>, b': seq<byte>)
    requires at + |d| <= |b| && b' == Splice(b, at, d)
    ensures b'[..at + |d|] == b[..at] + d
  {
  }

  /** What the client takes out of a packet: the joined strings of the answer, if the packet answers its query. */
  function Accepted(packet: seq<byte>, id: seq<byte>, qname: seq<byte>): (r: Option<seq<byte>>)
    requires |id| == 2
  {
    var q := 12 + |qname|;
    if |packet| < q + 16 || packet[..2] != id || packet[2..12] != [132, 0, 0, 1, 0, 1, 0, 0, 0, 0] then None
    else if !Equal(packet[12..q], qname) || packet[q..q + 14] != TXT_RECORD then None
    else
      var hi: nat, lo: nat := packet[q + 14], packet[q + 15];
      var n := hi * 256 + lo;
      if n > |packet| - q - 16 then None
      else
        var j := Join(0, packet[q + 16..q + 16 + n]);
        if j.None? || |j.value| < 28 then None else j
  }

  /** Lines 156-185 of `dq/dns_transmit.c`: the checks of `getquery`, and the strings joined in place. */
  method GetQuery(buf: array<byte>, len: nat, id: seq<byte>, qname: seq<byte>) returns (ok: bool, j: nat)
    requires len <= buf.Length && |id| == 2
    modifies buf
    ensures ok <==> Accepted(old(buf[..len]), id, qname).Some?
    ensures ok ==> 4 <= j <= buf.Length && buf[4..j] == Accepted(old(buf[..len]), id, qname).value
  {
    hide Equal;
    var p := buf[..len];
    j := 0;
    if len < 12 { return false, 0; }
    if p[..2] != id { return false, 0; }
    if p[2..12] != [132, 0, 0, 1, 0, 1, 0, 0, 0, 0] { return false, 0; }
    if |qname| > len - 12 { return false, 0; }
    var q := 12 + |qname|;
    if !Equal(p[12..q], qname) { return false, 0; }
    if q + 16 > len { return false, 0; }
    if p[q..q + 14] != TXT_RECORD { return false, 0; }
    var hi: nat, lo: nat := p[q + 14] as int, p[q + 15] as int;
    var n := hi * 256 + lo;
    if n > len - q - 16 { return false, 0; }
    ghost var a, b := p[q + 16..q + 16 + n], buf[q + 16..q + 16 + n];
    forall i | 0 <= i < n ensures a[i] == b[i] {}
    assert a == b;
    ok, j := JoinStrings(buf, q + 16, n);
    if !ok { return; }
    ok := j >= 32;
  }

  /** The client accepts the server's reply to its query and recovers the payload. */
  lemma ReplyAccepted(id: seq<byte>, qname: seq<byte>, p: seq<byte>)
    requires |id| == 2 && |p| >= 28 && |Split(p)| < 65536
    ensures Accepted(ReplyHead(id, false, qname, |Split(p)|) + Split(p), id, qname) == Some(p)
  {
    hide Split, Equal, ReplyHead, Join;
    var d := Split(p);
    var head := ReplyHead(id, false, qname, |d|);
    var packet := head + d;
    HeadParts(id, qname, |d|);
    var q := 12 + |qname|;
    assert packet[..2] == head[..2] && packet[2..12] == head[2..12] && packet[12..q] == head[12..q]
           && packet[q..q + 14] == head[q..q + 14];
    EqualRefl(qname);
    assert packet[q + 16..q + 16 + |d|] == d;
    JoinSplit(p);
  }

  lemma HeadParts(id: seq<byte>, qname: seq<byte>, n: nat)
    requires |id| == 2
    ensures var h := ReplyHead(id, false, qname, n);
            var q := 12 + |qname|;
            && h[..2] == id && h[2..12] == [132, 0, 0, 1, 0, 1, 0, 0, 0, 0] && h[12..q] == qname
               && h[q..q + 14] == TXT_RECORD
            && h[q + 14] == n / 256 % 256 && h[q + 15] == n % 256
  {
  }

  lemma EqualRefl(d: seq<byte>)
    ensures Equal(d, d)
  {
  }
}
