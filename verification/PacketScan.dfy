/**
What `dq/query.c` reads out of a packet: the records one after another, the flags that decide
what the packet means, and the positions that are sorted.
*/
module PacketScan {
  import opened Bits
  import opened Names
  import opened Packet
  import opened Message
  import opened RecordOrder
  import opened RecordSort

  const T_A: seq<byte> := [0, 1]
  const T_NS: seq<byte> := [0, 2]
  const T_CNAME: seq<byte> := [0, 5]
  const T_SOA: seq<byte> := [0, 6]
  const T_PTR: seq<byte> := [0, 12]
  const T_MX: seq<byte> := [0, 15]
  const T_AAAA: seq<byte> := [0, 28]
  const T_AXFR: seq<byte> := [0, 252]
  const T_ANY: seq<byte> := [0, 255]
  const C_IN: seq<byte> := [0, 1]

  /** `typematch`, lines 147-150. */
  predicate TypeMatch(rtype: seq<byte>, qtype: seq<byte>) { qtype == rtype || qtype == T_ANY }

  /** `ttlget`, lines 152-161. */
  function TtlGet(b: seq<byte>, minttl: u32): (t: u32)
    requires |b| == 4 && minttl <= 300
    ensures t <= 604800 && (t == 0 || t >= minttl)
  {
    var b0: int, b1: int, b2: int, b3: int := b[0], b[1], b[2], b[3];
    var u := b0 * 0x100_0000 + b1 * 0x1_0000 + b2 * 256 + b3;
    var v := if u < minttl then minttl else u;
    if v > 1000000000 then 0 else if v > 604800 then 604800 else v
  }

  /**
  A lifetime written by a server: above a billion it counts as none, and otherwise it is brought between the
  minimum and a week.
  */
  lemma TtlRead(u: u32, minttl: u32)
    requires minttl <= 300
    ensures TtlGet(ToBe32(u), minttl) == if u > 1000000000 then 0 else if u < minttl then minttl
                                                                       else if u > 604800 then 604800 else u
  {
    assert u == u / 0x100_0000 * 0x100_0000 + u / 0x1_0000 % 256 * 0x1_0000 + u / 256 % 256 * 256 + u % 256;
  }

  /** The lifetime of the record at `p`, as `ttlget` gives it. */
  ghost function TtlAt(buf: seq<byte>, p: nat, minttl: u32): u32
    requires minttl <= 300 && DataAt(buf, p) <= |buf|
  {
    var q := DataAt(buf, p);
    TtlGet(buf[q - 6..q - 2], minttl)
  }

  /** Where the data of a record starts, and where the next record starts. */
  ghost function DataAt(buf: seq<byte>, p: nat): nat { SkipName(buf, p) + 10 }

  ghost function NextAt(buf: seq<byte>, p: nat): nat
    requires DataAt(buf, p) <= |buf|
  {
    DataAt(buf, p) + Be16(buf, DataAt(buf, p) - 2)
  }

  /** The records at `ps` follow one another from `pos` to `end`. */
  ghost predicate Walk(buf: seq<byte>, pos: nat, ps: seq<nat>, end: nat)
    decreases |ps|
  {
    if ps == [] then pos == end
    else
      var n := |ps| - 1;
      && Readable(buf, ps[n]) && NextAt(buf, ps[n]) == end && Walk(buf, pos, ps[..n], ps[n])
  }

  lemma WalkSnoc(buf: seq<byte>, pos: nat, ps: seq<nat>, p: nat, end: nat)
    requires Walk(buf, pos, ps, p) && Readable(buf, p) && NextAt(buf, p) == end
    ensures Walk(buf, pos, ps + [p], end)
  {
    assert (ps + [p])[..|ps|] == ps;
  }

  lemma {:induction false} WalkConcat(buf: seq<byte>, a: nat, ps: seq<nat>, b: nat, qs: seq<nat>, c: nat)
    requires Walk(buf, a, ps, b) && Walk(buf, b, qs, c)
    ensures Walk(buf, a, ps + qs, c)
    decreases |qs|
  {
    hide Readable, NextAt;
    if qs == [] {
      assert ps + qs == ps;
    } else {
      var n := |qs| - 1;
      WalkConcat(buf, a, ps, b, qs[..n], qs[n]);
      assert ps + qs == (ps + qs[..n]) + [qs[n]];
      WalkSnoc(buf, a, ps + qs[..n], qs[n], c);
    }
  }

  /** Records further on have their owner names end further on. */
  lemma {:induction false} WalkForward(buf: seq<byte>, pos: nat, ps: seq<nat>, end: nat, i: nat)
    requires Walk(buf, pos, ps, end) && i < |ps|
    ensures Readable(buf, ps[i]) && ps[i] < SkipName(buf, ps[i]) && DataAt(buf, ps[i]) <= end
    decreases |ps|
  {
    hide Readable;
    var n := |ps| - 1;
    if i < n {
      WalkForward(buf, pos, ps[..n], ps[n], i);
    }
    ReadableForward(buf, ps[n]);
  }

  lemma ReadableForward(buf: seq<byte>, p: nat)
    requires Readable(buf, p)
    ensures 0 < SkipName(buf, p) && p < SkipName(buf, p)
  {
    hide Spells, SkipName;
    var n := NameAt(buf, p);
    assert exists m: seq<byte> :: Reads(buf, p, m);
    var j: int :| Spells(buf, p, n, j) && WithinLimits(n, j);
    SpellsSkips(buf, p, n, j);
    SkipForward(buf, p);
  }

  lemma {:induction false} SpellsSkips(buf: seq<byte>, p: nat, n: seq<byte>, j: int)
    requires Spells(buf, p, n, j)
    ensures SkipName(buf, p) > 0
    decreases |n|, j
  {
    var ch := buf[p];
    if 0 < ch < 64 {
      SpellsSkips(buf, p + 1 + ch, n[1 + ch..], j);
    }
  }

  lemma WalkStep(buf: seq<byte>, pos: nat, ps: seq<nat>, end: nat, i: nat, j: nat)
    requires Walk(buf, pos, ps, end) && i < j < |ps|
    ensures ps[i] < ps[j] && SkipName(buf, ps[i]) < SkipName(buf, ps[j])
    decreases |ps|
  {
    hide Readable;
    var n := |ps| - 1;
    if j < n {
      WalkStep(buf, pos, ps[..n], ps[n], i, j);
    } else {
      WalkForward(buf, pos, ps[..n], ps[n], i);
      ReadableForward(buf, ps[n]);
    }
  }

  /** Each record leads to the next. */
  lemma {:induction false} WalkNext(buf: seq<byte>, pos: nat, ps: seq<nat>, end: nat, i: nat)
    requires Walk(buf, pos, ps, end) && i < |ps|
    ensures ps[0] == pos && Readable(buf, ps[i]) && NextAt(buf, ps[i]) == if i + 1 < |ps| then ps[i + 1] else end
    decreases |ps|
  {
    hide Readable, NextAt;
    var n := |ps| - 1;
    if i < n {
      WalkNext(buf, pos, ps[..n], ps[n], i);
    } else if n > 0 {
      WalkNext(buf, pos, ps[..n], ps[n], 0);
    }
  }

  /** On the records of a packet the order of `smaller` is strict and total. */
  lemma StrictTotal(buf: seq<byte>, pos: nat, ps: seq<nat>, end: nat, i: nat, j: nat)
    requires Walk(buf, pos, ps, end) && i < |ps| && j < |ps| && i != j
    ensures Before(ViewAt(buf, ps[i]), ViewAt(buf, ps[j])) <==> !Before(ViewAt(buf, ps[j]), ViewAt(buf, ps[i]))
  {
    hide Before, Walk;
    if i < j { WalkStep(buf, pos, ps, end, i, j); } else { WalkStep(buf, pos, ps, end, j, i); }
    var a, b := ViewAt(buf, ps[i]), ViewAt(buf, ps[j]);
    BeforeTotal(a, b);
    if Before(a, b) { BeforeAsym(a, b); } else { BeforeAsym(b, a); }
  }

  /** `n` records can be read from `pos` on. */
  ghost predicate CanWalk(buf: seq<byte>, pos: nat, n: nat)
    decreases n
  {
    n == 0 || (Readable(buf, pos) && CanWalk(buf, NextAt(buf, pos), n - 1))
  }

  // ----- what the records say

  ghost function TypeAt(buf: seq<byte>, p: nat): seq<byte> { ViewAt(buf, p).head[..2] }

  /** A record of class IN owned by `d`. */
  ghost predicate Owned(buf: seq<byte>, p: nat, d: seq<byte>)
  {
    ViewAt(buf, p).name == Lower(d) && ViewAt(buf, p).head[2..] == C_IN
  }

  ghost predicate IsAnswer(buf: seq<byte>, p: nat, d: seq<byte>, dtype: seq<byte>)
  {
    Owned(buf, p, d) && TypeMatch(TypeAt(buf, p), dtype)
  }

  ghost predicate IsAlias(buf: seq<byte>, p: nat, d: seq<byte>, dtype: seq<byte>)
  {
    Owned(buf, p, d) && !TypeMatch(TypeAt(buf, p), dtype) && TypeAt(buf, p) == T_CNAME
  }

  /** What lines 810-838 find in the answer section. */
  datatype Answers = Answers(out: bool, alias: bool, cname: seq<byte>, ttl: u32, ns: bool)

  ghost predicate AnswersOk(buf: seq<byte>, ps: seq<nat>, d: seq<byte>, dtype: seq<byte>, a: Answers)
  {
    && (a.out <==> exists i :: 0 <= i < |ps| && IsAnswer(buf, ps[i], d, dtype))
    && (a.alias <==> exists i :: 0 <= i < |ps| && IsAlias(buf, ps[i], d, dtype))
    && (a.alias ==> IsName(a.cname) && |a.cname| <= 255 && exists i :: 0 <= i < |ps|
                                                                       && AliasTo(buf, ps[i], d, dtype, a.cname))
    && a.ttl <= 604800
  }

  ghost predicate AliasTo(buf: seq<byte>, p: nat, d: seq<byte>, dtype: seq<byte>, cname: seq<byte>)
  {
    IsAlias(buf, p, d, dtype) && NameAt(buf, DataAt(buf, p)) == cname
  }

  lemma AnswersNext(buf: seq<byte>, ps: seq<nat>, p: nat, d: seq<byte>, dtype: seq<byte>, a: Answers, a': Answers)
    requires AnswersOk(buf, ps, d, dtype, a)
    requires a'.out <==> a.out || IsAnswer(buf, p, d, dtype)
    requires if IsAlias(buf, p, d, dtype) then a'.alias && a'.ttl <= 604800 && IsName(a'.cname) && |a'.cname| <= 255
                                               && NameAt(buf, DataAt(buf, p)) == a'.cname
             else a'.alias == a.alias && a'.cname == a.cname && a'.ttl == a.ttl
    ensures AnswersOk(buf, ps + [p], d, dtype, a')
  {
    hide IsAnswer, IsAlias, NameAt, DataAt, IsName;
    var qs := ps + [p];
    assert qs[|ps|] == p;
    assert forall i :: 0 <= i < |ps| ==> qs[i] == ps[i];
    if a'.alias && !IsAlias(buf, p, d, dtype) {
      var i :| 0 <= i < |ps| && AliasTo(buf, ps[i], d, dtype, a.cname);
      assert AliasTo(buf, qs[i], d, dtype, a'.cname);
    } else if a'.alias {
      assert AliasTo(buf, qs[|ps|], d, dtype, a'.cname);
    }
    if exists i :: 0 <= i < |ps| && IsAnswer(buf, ps[i], d, dtype) {
      var i :| 0 <= i < |ps| && IsAnswer(buf, ps[i], d, dtype);
      assert IsAnswer(buf, qs[i], d, dtype);
    }
    if exists i :: 0 <= i < |ps| && IsAlias(buf, ps[i], d, dtype) {
      var i :| 0 <= i < |ps| && IsAlias(buf, ps[i], d, dtype);
      assert IsAlias(buf, qs[i], d, dtype);
    }
  }

  /** `n` answers can be read from `pos` on, the targets of aliases included. */
  ghost predicate CanScan(buf: seq<byte>, pos: nat, n: nat, d: seq<byte>, dtype: seq<byte>)
    decreases n
  {
    n == 0 || (Readable(buf, pos) && (IsAlias(buf, pos, d, dtype) ==> NameAt(buf, DataAt(buf, pos)) != [])
               && CanScan(buf, NextAt(buf, pos), n - 1, d, dtype))
  }

  /** A record read at `p`: owner, type, class, and where the next record starts. */
  method Record(buf: seq<byte>, p: nat) returns (ok: bool, t: seq<byte>, header: seq<byte>, data: nat, next: nat)
    ensures ok <==> Readable(buf, p)
    ensures ok ==> IsName(t) && |t| <= 255 && t == NameAt(buf, p) && |header| == 10 && data == DataAt(buf, p) <= |buf|
                   && next == NextAt(buf, p)
    ensures ok ==> TypeAt(buf, p) == header[..2] && ViewAt(buf, p).head[2..] == header[2..4]
                   && ViewAt(buf, p).name == Lower(t)
    ensures ok ==> header == buf[data - 10..data]
  {
    hide SkipName, NameAt;
    ok, t, header, data := ReadRecord(buf, p);
    next := 0;
    if ok {
      next := data + Be16(header, 8);
      assert header[..4][..2] == header[..2] && header[..4][2..] == header[2..4];
    }
  }

  /** Lines 818-836: one answer. */
  method AnswerStep(buf: seq<byte>, p: nat, d: seq<byte>, dtype: seq<byte>, minttl: u32, a: Answers, ghost ps: seq<nat>)
    returns (ok: bool, a': Answers, next: nat)
    requires |dtype| == 2 && minttl <= 300 && AnswersOk(buf, ps, d, dtype, a)
    ensures ok <==> Readable(buf, p) && (IsAlias(buf, p, d, dtype) ==> NameAt(buf, DataAt(buf, p)) != [])
    ensures ok ==> next == NextAt(buf, p) && AnswersOk(buf, ps + [p], d, dtype, a')
  {
    hide AnswersOk, NameAt, ViewAt, IsName;
    a' := a;
    var t, header, data;
    ok, t, header, data, next := Record(buf, p);
    if !ok { return; }
    if Equal(t, d) && header[2..4] == C_IN {
      if dtype == T_ANY && header[..2] == T_NS {
        a' := a'.(ns := true);
      }
      if TypeMatch(header[..2], dtype) {
        a' := a'.(out := true);
      } else if TypeMatch(header[..2], T_CNAME) {
        var r, cname := NameHere(buf, data);
        if r == 0 { return false, a', next; }
        a' := a'.(alias := true, cname := cname, ttl := TtlGet(header[4..8], minttl));
      }
    }
    AnswersNext(buf, ps, p, d, dtype, a, a');
  }

  /** Lines 810-838. */
  method ScanAnswers(buf: seq<byte>, start: nat, n: nat, d: seq<byte>, dtype: seq<byte>, minttl: u32)
    returns (ok: bool, a: Answers, pos: nat, ghost ps: seq<nat>)
    requires |dtype| == 2 && minttl <= 300
    ensures ok <==> CanScan(buf, start, n, d, dtype)
    ensures ok ==> |ps| == n && Walk(buf, start, ps, pos) && AnswersOk(buf, ps, d, dtype, a)
  {
    hide IsAlias, NameAt, DataAt, AnswersOk, Walk, Readable, NextAt;
    a, pos, ps := Answers(false, false, [], 0, false), start, [];
    NoAnswers(buf, start, d, dtype);
    var j := 0;
    while j < n
      invariant j <= n && |ps| == j && Walk(buf, start, ps, pos) && AnswersOk(buf, ps, d, dtype, a)
      invariant CanScan(buf, start, n, d, dtype) <==> CanScan(buf, pos, n - j, d, dtype)
    {
      var next;
      ghost var p := pos;
      ok, a, next := AnswerStep(buf, pos, d, dtype, minttl, a, ps);
      if !ok { return; }
      WalkSnoc(buf, start, ps, p, next);
      ps := ps + [p];
      pos := next;
      j := j + 1;
    }
    ok := true;
  }

  lemma NoAnswers(buf: seq<byte>, start: nat, d: seq<byte>, dtype: seq<byte>)
    ensures Walk(buf, start, [], start) && AnswersOk(buf, [], d, dtype, Answers(false, false, [], 0, false))
  {
  }

  /** What lines 840-857 find in the authority section. */
  datatype Authority = Authority(soa: bool, soattl: u32, referral: bool, zone: seq<byte>, ns: bool)

  ghost predicate AuthorityOk(buf: seq<byte>, ps: seq<nat>, d: seq<byte>, a: Authority)
  {
    && (a.soa <==> exists i :: 0 <= i < |ps| && TypeAt(buf, ps[i]) == T_SOA)
    && (a.referral <==> exists i :: 0 <= i < |ps| && TypeAt(buf, ps[i]) == T_NS)
    && (a.referral ==> IsName(a.zone) && |a.zone| <= 255 && exists i :: 0 <= i < |ps| && NsOf(buf, ps[i], a.zone))
    && a.soattl <= 3600
  }

  ghost predicate NsOf(buf: seq<byte>, p: nat, zone: seq<byte>) { TypeAt(buf, p) == T_NS && NameAt(buf, p) == zone }

  lemma AuthorityNext(buf: seq<byte>, ps: seq<nat>, p: nat, d: seq<byte>, a: Authority, a': Authority)
    requires AuthorityOk(buf, ps, d, a) && a'.soattl <= 3600
    requires a'.soa <==> a.soa || TypeAt(buf, p) == T_SOA
    requires if TypeAt(buf, p) == T_NS then a'.referral && IsName(a'.zone) && |a'.zone| <= 255
                                            && NameAt(buf, p) == a'.zone
             else a'.referral == a.referral && a'.zone == a.zone
    ensures AuthorityOk(buf, ps + [p], d, a')
  {
    hide TypeAt, NameAt, IsName;
    var qs := ps + [p];
    assert qs[|ps|] == p;
    assert forall i :: 0 <= i < |ps| ==> qs[i] == ps[i];
    if a'.referral && TypeAt(buf, p) != T_NS {
      var i :| 0 <= i < |ps| && NsOf(buf, ps[i], a.zone);
      assert NsOf(buf, qs[i], a'.zone);
    } else if a'.referral {
      assert NsOf(buf, qs[|ps|], a'.zone);
    }
    if a.soa {
      var i :| 0 <= i < |ps| && TypeAt(buf, ps[i]) == T_SOA;
      assert TypeAt(buf, qs[i]) == T_SOA;
    }
    if a.referral {
      var i :| 0 <= i < |ps| && TypeAt(buf, ps[i]) == T_NS;
      assert TypeAt(buf, qs[i]) == T_NS;
    }
  }

  /** Lines 841-856: one authority record. */
  method AuthorityStep(buf: seq<byte>, p: nat, d: seq<byte>, minttl: u32, a: Authority, ghost ps: seq<nat>)
    returns (ok: bool, a': Authority, next: nat)
    requires minttl <= 300 && AuthorityOk(buf, ps, d, a)
    ensures ok <==> Readable(buf, p)
    ensures ok ==> next == NextAt(buf, p) && AuthorityOk(buf, ps + [p], d, a')
  {
    hide NameAt, ViewAt, IsName, TypeAt;
    a' := a;
    var t, header, data;
    ok, t, header, data, next := Record(buf, p);
    if !ok { return; }
    if TypeMatch(header[..2], T_SOA) {
      var ttl := TtlGet(header[4..8], minttl);
      a' := a'.(soa := true, soattl := if ttl > 3600 then 3600 else ttl);
    } else if TypeMatch(header[..2], T_NS) {
      a' := a'.(referral := true, ns := a'.ns || Equal(t, d), zone := t);
    }
    AuthorityNext(buf, ps, p, d, a, a');
  }

  /** Lines 840-857. */
  method ScanAuthority(buf: seq<byte>, start: nat, n: nat, d: seq<byte>, minttl: u32, ns: bool)
    returns (ok: bool, a: Authority, pos: nat, ghost ps: seq<nat>)
    requires minttl <= 300
    ensures ok <==> CanWalk(buf, start, n)
    ensures ok ==> |ps| == n && Walk(buf, start, ps, pos) && AuthorityOk(buf, ps, d, a)
  {
    hide AuthorityOk, Walk, Readable, NextAt;
    a, pos, ps := Authority(false, 0, false, [], ns), start, [];
    NoAuthority(buf, start, d, ns);
    var j := 0;
    while j < n
      invariant j <= n && |ps| == j && Walk(buf, start, ps, pos) && AuthorityOk(buf, ps, d, a)
      invariant CanWalk(buf, start, n) <==> CanWalk(buf, pos, n - j)
    {
      var next;
      ghost var p := pos;
      ok, a, next := AuthorityStep(buf, pos, d, minttl, a, ps);
      if !ok { return; }
      WalkSnoc(buf, start, ps, p, next);
      ps := ps + [p];
      pos := next;
      j := j + 1;
    }
    ok := true;
  }

  lemma NoAuthority(buf: seq<byte>, start: nat, d: seq<byte>, ns: bool)
    ensures Walk(buf, start, [], start) && AuthorityOk(buf, [], d, Authority(false, 0, false, [], ns))
  {
  }

  /** Lines 871-882: the position of every record. */
  method Positions(buf: seq<byte>, start: nat, k: nat) returns (ok: bool, a: array<nat>, ghost end: nat)
    ensures fresh(a) && (ok <==> CanWalk(buf, start, k))
    ensures ok ==> a.Length == k && Walk(buf, start, a[..], end)
  {
    hide Walk, Readable, NextAt;
    a := new nat[k];
    var pos: nat := start;
    end := start;
    WalkNone(buf, start);
    assert a[..0] == [];
    for j := 0 to k
      invariant Walk(buf, start, a[..j], pos) && end == pos && fresh(a)
      invariant CanWalk(buf, start, k) <==> CanWalk(buf, pos, k - j)
    {
      ghost var was, p := a[..j], pos;
      a[j] := pos;
      assert a[..j + 1] == was + [p];
      var t, header, data, next;
      ok, t, header, data, next := Record(buf, pos);
      if !ok { return; }
      WalkSnoc(buf, start, was, p, next);
      pos := next;
      end := next;
    }
    assert a[..] == a[..k];
    ok := true;
  }

  lemma WalkNone(buf: seq<byte>, start: nat)
    ensures Walk(buf, start, [], start)
  {
  }

  lemma WalkReadable(buf: seq<byte>, start: nat, ps: seq<nat>, end: nat)
    requires Walk(buf, start, ps, end)
    ensures AllReadable(buf, ps)
  {
    hide Walk, Readable;
    forall c | 1 <= c <= |ps| ensures Readable(buf, At(ps, c)) { WalkForward(buf, start, ps, end, c - 1); }
  }
}
