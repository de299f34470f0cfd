/**
The TXT query of DNSCurve from end to end: what the client builds in its query buffer
(`txtquery` in `dq/dns_transmit.c`), the server takes apart (`dnscurve_parse_query_name`).
*/
module CurveQuery {
  import opened Bits
  import opened Bytes
  import opened Names
  import opened Base32
  import opened CurveName
  import opened Wrappers

  // ----- the server

  /** The text of the labels from byte `i` up to the first label of 54 bytes, and where that is. */
  function Gather(name: seq<byte>, i: nat): (r: Option<(seq<byte>, nat)>)
    ensures r.Some? ==> i <= r.value.1 < |name| && name[r.value.1] == 54
    decreases |name| - i
  {
    if i >= |name| then None
    else
      var n := name[i];
      if n == 54 then Some(([], i))
      else if n > 50 || n == 0 || i + 1 + n > |name| then None
      else Before(name[i + 1..i + 1 + n], Gather(name, i + 1 + n))
  }

  function Before(c: seq<byte>, r: Option<(seq<byte>, nat)>): (r': Option<(seq<byte>, nat)>)
  {
    match r
    case None => None
    case Some((d, e)) => Some((c + d, e))
  }

  datatype Parsed = Parsed(box: seq<byte>, key: seq<byte>, zone: nat)

  /** What a query name means. */
  function ParsedName(name: seq<byte>): Option<Parsed>
  {
    match Gather(name, 0)
    case None => None
    case Some((c, at)) =>
      if |c| > 4096 || Decoded(c, false).None? || at + 55 > |name| then None
      else if name[at + 1] !in {88, 120} || name[at + 2] != 49 || name[at + 3] !in {65, 97} then None
      else if Decoded(name[at + 4..at + 55], true).None? then None
      else Some(Parsed(Decoded(c, false).value, Decoded(name[at + 4..at + 55], true).value, at + 55))
  }

  /** Lines 113-128: the labels before the key, put together. */
  method Concatenate(name: seq<byte>) returns (r: Option<(seq<byte>, nat)>)
    requires IsName(name)
    ensures r == if Gather(name, 0).Some? && |Gather(name, 0).value.0| <= 4096 then Gather(name, 0) else None
    ensures r.Some? ==> IsName(name[r.value.1..])
  {
    hide IsName;
    var c: seq<byte>, i: nat := [], 0;
    assert name[0..] == name;
    BeforeNothing(Gather(name, 0));
    while true
      invariant i <= |name| && IsName(name[i..]) && |c| <= 4096
      invariant Gather(name, 0) == Before(c, Gather(name, i))
      decreases |name| - i
    {
      NameHead(name, i);
      var n: nat := name[i] as int;
      if n == 54 {
        assert c + [] == c;
        return Some((c, i));
      }
      if n > 50 || n == 0 { return None; }
      BeforeBefore(c, name[i + 1..i + 1 + n], Gather(name, i + 1 + n));
      if |c| + n > 4096 { return None; }
      c := c + name[i + 1..i + 1 + n];
      i := i + 1 + n;
    }
  }

  lemma NameHead(name: seq<byte>, i: nat)
    requires i <= |name| && IsName(name[i..])
    ensures i < |name| && name[i] < 64 && (name[i] > 0 ==> i + 1 + name[i] < |name| && IsName(name[i + 1 + name[i]..]))
  {
    var d := name[i..];
    assert d[0] == name[i];
    if name[i] > 0 { assert d[1 + d[0]..] == name[i + 1 + name[i]..]; }
  }

  lemma BeforeNothing(r: Option<(seq<byte>, nat)>)
    ensures Before([], r) == r
  {
    if r.Some? { assert [] + r.value.0 == r.value.0; }
  }

  lemma BeforeBefore(a: seq<byte>, b: seq<byte>, r: Option<(seq<byte>, nat)>)
    ensures Before(a, Before(b, r)) == Before(a + b, r)
    ensures r.Some? ==> |Before(a + b, r).value.0| >= |a| + |b|
  {
    if r.Some? { assert a + (b + r.value.0) == (a + b) + r.value.0; }
  }

  /** `dnscurve_parse_query_name`, lines 105-153. */
  method ParseName(name: seq<byte>) returns (r: Option<Parsed>)
    requires IsName(name)
    ensures r == ParsedName(name)
  {
    hide IsName, Decoded;
    var g := Concatenate(name);
    if g.None? { return None; }
    var c, at := g.value.0, g.value.1;
    NameHead(name, at);
    TextSize(c);
    var box := Decode(c, 4096, false);
    if box.None? { return None; }
    if name[at + 1] !in {88, 120} || name[at + 2] != 49 || name[at + 3] !in {65, 97} { return None; }
    TextSize(name[at + 4..at + 55]);
    var key := Decode(name[at + 4..at + 55], 32, true);
    if key.None? { return None; }
    return Some(Parsed(box.value, key.value, at + 55));
  }

  lemma TextSize(c: seq<byte>)
    ensures |c| <= 4096 && Decoded(c, false).Some? ==> |Decoded(c, false).value| <= 4096
    ensures |c| == 51 && Decoded(c, true).Some? ==> |Decoded(c, true).value| == 32
  {
  }

  // ----- the client's name read by the server

  /** Label `g` starts here. */
  function Start(w: seq<byte>, g: nat): nat { if 51 * g < |w| then 51 * g else |w| }

  lemma WireLabel(w: seq<byte>, c: seq<byte>, rest: seq<byte>, g: nat)
    requires IsWire(w, c) && 50 * g < |c|
    ensures var n := if |c| - 50 * g < 50 then |c| - 50 * g else 50;
            var i := Start(w, g);
            && 0 < n <= 50 && i + 1 + n <= |w| && (w + rest)[i] == n && Start(w, g + 1) == i + 1 + n
            && (w + rest)[i + 1..i + 1 + n] == c[50 * g..50 * g + n]
  {
    var n := if |c| - 50 * g < 50 then |c| - 50 * g else 50;
    assert g < (|c| + 49) / 50;
    assert LabelAt(w, g, n);
    var i := 51 * g;
    var a, b := (w + rest)[i + 1..i + 1 + n], c[50 * g..50 * g + n];
    forall k | 0 <= k < n ensures a[k] == b[k] {
      var t := 50 * g + k;
      assert t / 50 == g;
      assert Place(t) == i + 1 + k && w[Place(t)] == c[t];
    }
    assert |w| == |c| + (|c| + 49) / 50;
  }

  /** The characters from label `g` on. */
  function From(c: seq<byte>, g: nat): seq<byte> { if 50 * g < |c| then c[50 * g..] else [] }

  lemma {:induction false} GatherWire(w: seq<byte>, c: seq<byte>, rest: seq<byte>, g: nat)
    requires IsWire(w, c) && |rest| > 0 && rest[0] == 54 && 50 * g < |c| + 50
    ensures var e: nat := |w|; Gather(w + rest, Start(w, g)) == Some((From(c, g), e))
    decreases |c| + 50 - 50 * g
  {
    hide IsWire, Gather, Start, From;
    if 50 * g < |c| {
      WireLabel(w, c, rest, g);
      var n := if |c| - 50 * g < 50 then |c| - 50 * g else 50;
      var name := w + rest;
      GatherStep(name, Start(w, g), n);
      GatherWire(w, c, rest, g + 1);
      FromSplit(c, g, n);
    } else {
      WireEnd(w, c, g);
      GatherStop(w + rest, |w|);
      FromEnd(c, g);
    }
  }

  lemma FromSplit(c: seq<byte>, g: nat, n: nat)
    requires 50 * g < |c| && n == if |c| - 50 * g < 50 then |c| - 50 * g else 50
    ensures From(c, g) == c[50 * g..50 * g + n] + From(c, g + 1)
  {
  }

  lemma FromEnd(c: seq<byte>, g: nat)
    requires |c| <= 50 * g
    ensures From(c, g) == []
  {
  }

  lemma GatherStep(name: seq<byte>, i: nat, n: nat)
    requires i + 1 + n <= |name| && name[i] == n && 0 < n <= 50
    ensures Gather(name, i) == Before(name[i + 1..i + 1 + n], Gather(name, i + 1 + n))
  {
  }

  lemma GatherStop(name: seq<byte>, i: nat)
    requires i < |name| && name[i] == 54
    ensures Gather(name, i) == Some(([], i))
  {
  }

  lemma WireEnd(w: seq<byte>, c: seq<byte>, g: nat)
    requires IsWire(w, c) && |c| <= 50 * g
    ensures Start(w, g) == |w|
  {
  }

  lemma {:induction false} NameWire(w: seq<byte>, c: seq<byte>, rest: seq<byte>, g: nat)
    requires IsWire(w, c) && IsName(rest) && 50 * g < |c| + 50
    ensures Start(w, g) <= |w| && IsName((w + rest)[Start(w, g)..])
    decreases |c| + 50 - 50 * g
  {
    hide IsWire;
    if 50 * g < |c| {
      WireLabel(w, c, rest, g);
      NameWire(w, c, rest, g + 1);
      ConsLabel(w + rest, Start(w, g));
    } else {
      WireEnd(w, c, g);
      assert (w + rest)[|w|..] == rest;
    }
  }

  lemma ConsLabel(name: seq<byte>, i: nat)
    requires i < |name| && 0 < name[i] < 64 && i + 1 + name[i] <= |name| && IsName(name[i + 1 + name[i]..])
    ensures IsName(name[i..])
  {
    var d := name[i..];
    assert d[0] == name[i];
    assert d[1 + d[0]..] == name[i + 1 + name[i]..];
  }

  lemma KeyName(key: seq<byte>, suffix: seq<byte>)
    requires |key| == 32 && IsName(suffix)
    ensures IsName(KeyLabel(key) + suffix)
  {
    hide IsName;
    var name := KeyLabel(key) + suffix;
    assert name[55..] == suffix;
    ConsLabel(name, 0);
    assert name[0..] == name;
  }

  /**
  The name the client builds is a name, and the server finds in it the nonce and box, the place of
  the zone and, exactly if its top bit is zero, the key.
  */
  lemma TxtRoundTrip(w: seq<byte>, payload: seq<byte>, key: seq<byte>, suffix: seq<byte>)
    requires IsWire(w, Encoded(payload)) && |key| == 32 && IsName(suffix)
    ensures var name := w + (KeyLabel(key) + suffix);
            var r := ParsedName(name);
            && IsName(name) && (r.Some? <==> |payload| <= 2560)
            && (r.Some? ==> r.value.box == payload && r.value.zone == |w| + 55 && name[r.value.zone..] == suffix)
            && (r.Some? ==> (r.value.key == key <==> key[31] < 128))
  {
    hide IsName, Decoded, Encoded, IsWire, KeyText;
    var c, rest := Encoded(payload), KeyLabel(key) + suffix;
    var name := w + rest;
    KeyName(key, suffix);
    StartZero(w);
    GatherWire(w, c, rest, 0);
    NameWire(w, c, rest, 0);
    assert name[0..] == name;
    assert From(c, 0) == c;
    RoundTrip(payload);
    KeyRoundTrip(key);
    assert name[|w| + 4..|w| + 55] == KeyText(key);
    assert name[|w| + 55..] == suffix;
    assert name[|w| + 1] == 120 && name[|w| + 2] == 49 && name[|w| + 3] == 97;
    assert |c| <= 4096 <==> |payload| <= 2560;
  }

  lemma StartZero(w: seq<byte>)
    ensures Start(w, 0) == 0
  {
  }

  // ----- the client's buffer

  /**
  `byte_copyr`, lines 18-25 of `dq/byte.c`: copied from the end, so that the target may overlap the source
  from above.
  */
  method MoveUp(buf: array<byte>, to: nat, from: nat, n: nat)
    requires from <= to && to + n <= buf.Length
    modifies buf
    ensures buf[..] == Splice(old(buf[..]), to, old(buf[from..from + n]))
  {
    hide Splice, Moved;
    ghost var b := buf[..];
    var i := n;
    MovedStart(b, to, from, n);
    while i > 0
      invariant 0 <= i <= n && Moved(b, buf[..], to, from, n, i)
    {
      i := i - 1;
      ghost var c := buf[..];
      MovedStep(b, c, to, from, n, i);
      buf[to + i] := buf[from + i];
      assert buf[..] == c[to + i := c[from + i]];
    }
    MovedAll(b, buf[..], to, from, n);
  }

  /** The bytes from `i` on have been moved. */
  ghost predicate Moved(b: seq<byte>, c: seq<byte>, to: nat, from: nat, n: nat, i: nat)
    requires from <= to && to + n <= |b|
  {
    |c| == |b| && forall y :: 0 <= y < |c| ==> c[y] == b[Source(y, to, from, n, i)]
  }

  /** Where byte `y` comes from. */
  ghost function Source(y: nat, to: nat, from: nat, n: nat, i: nat): (x: nat)
    requires from <= to
    ensures x <= y
  {
    if to + i <= y < to + n then y - (to - from) else y
  }

  lemma MovedStart(b: seq<byte>, to: nat, from: nat, n: nat)
    requires from <= to && to + n <= |b|
    ensures Moved(b, b, to, from, n, n)
  {
  }

  lemma MovedStep(b: seq<byte>, c: seq<byte>, to: nat, from: nat, n: nat, i: nat)
    requires from <= to && to + n <= |b| && i < n && Moved(b, c, to, from, n, i + 1)
    ensures Moved(b, c[to + i := c[from + i]], to, from, n, i)
  {
    assert c[from + i] == b[from + i];
  }

  lemma MovedAll(b: seq<byte>, c: seq<byte>, to: nat, from: nat, n: nat)
    requires from <= to && to + n <= |b| && Moved(b, c, to, from, n, 0)
    ensures c == Splice(b, to, b[from..from + n])
  {
  }

  /** The length of a TXT query, line 93. */
  function QueryLen(len: nat, suffix: seq<byte>): nat { BytesSize(len + 44) + |suffix| + 73 }

  /** Lines 106-107: the nonce and the box are moved to the end of the query. */
  method PlacePayload(query: array<byte>, querylen: nat, len: nat, nonce: seq<byte>, ghost box: seq<byte>)
    requires |nonce| == 12 && len + 44 <= querylen <= query.Length && 16 <= querylen - len - 32
             && box == query[16..len + 48]
    modifies query
    ensures query[querylen - len - 44..querylen] == nonce + box
  {
    hide Splice;
    MoveUp(query, querylen - len - 32, 16, len + 32);
    CopyBytes(query, querylen - len - 44, nonce);
    PayloadPlaced(old(query[..]), querylen - len - 44, nonce, box, query[..]);
  }

  lemma PayloadPlaced(b: seq<byte>, at: nat, nonce: seq<byte>, box: seq<byte>, b': seq<byte>)
    requires |nonce| == 12 && at + 12 + |box| <= |b| && b' == Splice(Splice(b, at + 12, box), at, nonce)
    ensures b'[at..at + 12 + |box|] == nonce + box
  {
    hide Splice;
    var b1 := Splice(b, at + 12, box);
    SpliceHere(b, at + 12, box);
    SpliceHere(b1, at, nonce);
    SpliceElsewhere(b1, at, nonce, at + 12, at + 12 + |box|);
    assert b'[at..at + 12 + |box|] == b'[at..at + 12] + b'[at + 12..at + 12 + |box|];
  }

  /** Lines 109-111: length, identification and header. */
  method PlaceHeader(query: array<byte>, querylen: nat, id: seq<byte>)
    requires |id| == 2 && 14 <= query.Length && 2 <= querylen <= query.Length
    modifies query
    ensures query[..14] == QueryHeader(querylen, id) && query[14..] == old(query[14..])
  {
    var h := QueryHeader(querylen, id);
    CopyBytes(query, 0, h);
    assert query[..14] == query[0..14];
  }

  function QueryHeader(querylen: nat, id: seq<byte>): (h: seq<byte>)
    requires |id| == 2 && querylen >= 2
    ensures |h| == 14
  {
    [(querylen - 2) / 256 % 256, (querylen - 2) % 256] + id + [0, 0, 0, 1, 0, 0, 0, 0, 0, 0]
  }

  /**
  Lines 106-117 of `txtquery`, on the buffer that holds the box from byte 16 on: behind the header
  stands a name from which the server recovers nonce, box and key, then type TXT and class IN.
  */
  method TxtQuery(query: array<byte>, len: nat, nonce: seq<byte>, id: seq<byte>, pk: seq<byte>, suffix: seq<byte>,
                  ghost box: seq<byte>)
    returns (querylen: nat)
    requires |nonce| == 12 && |id| == 2 && |pk| == 32 && IsName(suffix)
    requires QueryLen(len, suffix) <= query.Length && box == query[16..len + 48]
    modifies query
    ensures querylen == QueryLen(len, suffix) && query[..14] == QueryHeader(querylen, id)
    ensures query[querylen - 4..querylen] == [0, 16, 0, 1]
    ensures var name := query[14..querylen - 4];
            && IsName(name) && (ParsedName(name).Some? <==> len <= 2516)
            && (ParsedName(name).Some?
                ==> ParsedName(name).value.box == nonce + box && name[ParsedName(name).value.zone..] == suffix)
            && (ParsedName(name).Some? ==> (ParsedName(name).value.key == pk <==> pk[31] < 128))
  {
    hide IsWire, ParsedName, IsName, KeyLabel, QueryHeader;
    var m := BytesSize(len + 44);
    querylen := m + |suffix| + 73;
    ghost var w := Front(query, querylen, m, len, nonce, id, box);
    ghost var q := query[..];
    Tail(query, 14 + m, pk, suffix);
    TxtRoundTrip(w, nonce + box, pk, suffix);
    Assembled(q, query[..], w, KeyLabel(pk), suffix);
  }

  lemma Assembled(q: seq<byte>, q': seq<byte>, w: seq<byte>, key: seq<byte>, suffix: seq<byte>)
    requires |q| == |q'| && |key| == 55 && 14 + |w| + 59 + |suffix| <= |q| && q[14..14 + |w|] == w
    requires q'[..14 + |w|] == q[..14 + |w|] && q'[14 + |w|..14 + |w| + 59 + |suffix|] == key + suffix + [0, 16, 0, 1]
    ensures var e := 14 + |w| + 59 + |suffix|;
            q'[..14] == q[..14] && q'[14..e - 4] == w + (key + suffix) && q'[e - 4..e] == [0, 16, 0, 1]
  {
    var m := 14 + |w|;
    var e := m + 59 + |suffix|;
    var t := q'[m..e];
    assert q'[..14] == q'[..m][..14] && q[..14] == q[..m][..14];
    assert q'[14..m] == q'[..m][14..m] && q[14..m] == q[..m][14..m];
    assert t[..|key + suffix|] == key + suffix;
    SliceSlice(q', m, e, 0, e - 4 - m);
    SliceSlice(q', m, e, e - 4 - m, e - m);
    assert t[e - 4 - m..] == [0, 16, 0, 1];
    assert q'[14..e - 4] == q'[14..m] + q'[m..e - 4];
  }

  /** Lines 106-112: header, and nonce and box in labels. */
  method Front(query: array<byte>, querylen: nat, m: nat, len: nat, nonce: seq<byte>, id: seq<byte>,
               ghost box: seq<byte>) returns (ghost w: seq<byte>)
    requires |nonce| == 12 && |id| == 2 && m == BytesSize(len + 44) && m + 73 <= querylen <= query.Length
             && box == query[16..len + 48]
    modifies query
    ensures w == query[14..14 + m] && IsWire(w, Encoded(nonce + box)) && query[..14] == QueryHeader(querylen, id)
  {
    hide IsWire, QueryHeader, Encoded;
    PlacePayload(query, querylen, len, nonce, box);
    ghost var q := query[..];
    PlaceHeader(query, querylen, id);
    SameTail(q, query[..], 14, querylen - len - 44, querylen);
    EncodeBytes(query, 14, querylen - len - 44, len + 44, nonce + box);
    w := query[14..14 + m];
  }

  lemma SameTail(a: seq<byte>, b: seq<byte>, k: nat, i: nat, j: nat)
    requires k <= i <= j <= |a| == |b| && a[k..] == b[k..]
    ensures a[i..j] == b[i..j]
  {
    SliceSlice(a, k, |a|, i - k, j - k);
    SliceSlice(b, k, |b|, i - k, j - k);
    assert a[k..|a|] == a[k..] && b[k..|b|] == b[k..];
  }

  /** Lines 113-117: the key, the suffix, type and class. */
  method Tail(query: array<byte>, at: nat, pk: seq<byte>, suffix: seq<byte>)
    requires |pk| == 32 && at + 59 + |suffix| <= query.Length
    modifies query
    ensures query[..at] == old(query[..at])
    ensures query[at..at + 59 + |suffix|] == KeyLabel(pk) + suffix + [0, 16, 0, 1]
  {
    hide KeyLabel;
    EncodeKey(query, at, pk);
    CopyBytes(query, at + 55, suffix);
    CopyBytes(query, at + 55 + |suffix|, [0, 16]);
    CopyBytes(query, at + 57 + |suffix|, [0, 1]);
    TailSplices(old(query[..]), at, KeyLabel(pk), suffix, query[..]);
  }

  lemma TailSplices(b: seq<byte>, at: nat, key: seq<byte>, suffix: seq<byte>, b': seq<byte>)
    requires at + |key| + |suffix| + 4 <= |b| && |key| == 55
    requires b' == Splice(Splice(Splice(Splice(b, at, key), at + 55, suffix), at + 55 + |suffix|, [0, 16]),
                          at + 57 + |suffix|, [0, 1])
    ensures b'[..at] == b[..at] && b'[at..at + 59 + |suffix|] == key + suffix + [0, 16, 0, 1]
  {
    hide Splice;
    SpliceSplice(b, at, key, suffix);
    SpliceSplice(b, at, key + suffix, [0, 16]);
    SpliceSplice(b, at, key + suffix + [0, 16], [0, 1]);
    var all := key + suffix + [0, 16] + [0, 1];
    assert all == key + suffix + [0, 16, 0, 1];
    SpliceHere(b, at, all);
    SpliceElsewhere(b, at, all, 0, at);
    assert b'[..at] == b'[0..at] && b[..at] == b[0..at];
  }
}
