/**
The message builder of `dq/response.c`: a buffer of 65535 bytes, the compression table and the
record being written. Every name written can be read back, and the finished message parses as its
header, one question and exactly the records counted in the header.
*/
module Response {
  import opened Bits
  import opened Bytes
  import opened Names
  import opened Packet
  import opened Compress
  import opened NameTable
  import opened Message

  /** A name the builder wrote at `pos`, and how the message spells it. */
  datatype Wrote = Wrote(pos: nat, d: seq<byte>, s: Spelling, end: nat)

  ghost predicate WroteOk(msg: seq<byte>, on: set<nat>, w: Wrote)
  {
    Written(msg, on, w.pos, w.d, w.s.spelled, w.s.jumps) && SkipName(msg, w.pos) == w.end
  }

  ghost predicate AllWrote(msg: seq<byte>, on: set<nat>, ws: seq<Wrote>)
  {
    forall i :: 0 <= i < |ws| ==> WroteOk(msg, on, ws[i])
  }

  lemma AllWroteKeeps(a: seq<byte>, b: seq<byte>, on: set<nat>, on': set<nat>, ws: seq<Wrote>)
    requires AllWrote(a, on, ws) && Keeps(a, b, on) && on <= on'
    ensures AllWrote(b, on', ws)
  {
    forall i | 0 <= i < |ws| ensures WroteOk(b, on', ws[i]) {
      assert WroteOk(a, on, ws[i]);
      SpellsOnKeeps(a, b, on, on', ws[i].pos, ws[i].s.spelled, ws[i].s.jumps);
    }
  }

  /** Type, class IN and time to live of a record. */
  function Fixed(typ: seq<byte>, ttl: u32): (f: seq<byte>)
    requires |typ| == 2
    ensures |f| == 8
  {
    typ + [0, 1] + ToBe32(ttl)
  }

  lemma WroteEnds(msg: seq<byte>, on: set<nat>, w: Wrote)
    requires WroteOk(msg, on, w) && w.end > 0
    ensures SkipName(msg, w.pos) == w.end && w.pos < w.end
  {
    hide Written;
    SkipForward(msg, w.pos);
  }

  /** The owner of each record is a name written where the record starts. */
  ghost predicate Owners(ws: seq<Wrote>, recs: seq<Rec>)
  {
    forall k :: 0 <= k < |recs| ==> recs[k].name < |ws| && ws[recs[k].name].pos == recs[k].raw.pos
  }

  lemma OwnersMore(ws: seq<Wrote>, w: Wrote, recs: seq<Rec>)
    requires Owners(ws, recs)
    ensures Owners(ws + [w], recs)
  {
  }

  lemma OwnersNext(ws: seq<Wrote>, recs: seq<Rec>, r: Rec)
    requires Owners(ws, recs) && r.name < |ws| && ws[r.name].pos == r.raw.pos
    ensures Owners(ws, recs + [r])
  {
  }

  lemma WindowStays(m: seq<byte>, m': seq<byte>, i: nat, j: nat)
    requires m <= m' && i <= j <= |m|
    ensures m'[i..j] == m[i..j]
  {
  }

  class Response {
    const buf: array<byte>
    var len: nat
    var names: seq<Known>
    var tctarget: nat
    var dpos: nat
    var hidettl: bool
    ghost var on: set<nat>
    ghost var sp: seq<Spelling>
    ghost var ws: seq<Wrote>
    ghost var recs: seq<Rec>
    ghost var open: bool
    ghost var opos: nat
    ghost var oname: nat
    ghost var ask: seq<byte>

    constructor (hideTtl: bool)
      ensures fresh(buf) && Sane() && hidettl == hideTtl
    {
      buf := new byte[65535];
      len, names, tctarget, dpos, hidettl := 0, [], 0, 0, hideTtl;
    }

    ghost predicate Sane()
      reads this
    {
      buf.Length == 65535 && len <= 65535
    }

    ghost function Msg(): seq<byte>
      reads this, buf
      requires len <= buf.Length
    {
      buf[..len]
    }

    /** The buffer and the names in it. */
    ghost predicate Base()
      reads this, buf
    {
      && buf.Length == 65535 && len <= 65535 && |names| <= NAMES
      && (forall x :: x in on ==> 12 <= x < len)
      && TableOk(Msg(), on, names, sp) && AllWrote(Msg(), on, ws)
    }

    /** The header, the question, the finished records and, while a record is open, its name and ten fixed bytes. */
    ghost predicate Valid()
      reads this, buf
    {
      && Base() && 12 <= tctarget <= len
      && Question(Msg(), ws, tctarget, ask)
      && Chain(Msg(), recs, tctarget, if open then opos else len)
      && Counts(Msg(), recs) && Ordered(recs) && Owners(ws, recs)
      && (open ==> OpenRecord(Msg(), on, opos, dpos) && oname < |ws| && ws[oname].pos == opos)
    }

    /** `response_addbytes`, lines 16-23. */
    method AddBytes(s: seq<byte>) returns (ok: bool)
      requires buf.Length == 65535 && len <= 65535
      modifies `len, buf
      ensures ok <==> |s| <= 65535 - old(len)
      ensures if ok then len == old(len) + |s| && Msg() == old(Msg()) + s else len == old(len) && Msg() == old(Msg())
    {
      if |s| > 65535 - len {
        return false;
      }
      ghost var m := Msg();
      CopyBytes(buf, len, s);
      len := len + |s|;
      assert buf[..len] == m + s;
      return true;
    }

    /** Lines 34-35: the first table entry equal to `d`. */
    method Search(d: seq<byte>) returns (t: nat)
      ensures t <= |names| && (t < |names| ==> Equal(d, names[t].name))
      ensures t == |names| ==> forall i :: 0 <= i < |names| ==> !Equal(d, names[i].name)
    {
      t := 0;
      while t < |names|
        invariant t <= |names| && forall i :: 0 <= i < t ==> !Equal(d, names[i].name)
      {
        if Equal(d, names[t].name) {
          return;
        }
        t := t + 1;
      }
    }

    /**
    `response_addname`, lines 25-52. A name written is spelled at the position it starts at, up to
    case, and ends where the message now ends.
    */
    method AddName(d: seq<byte>) returns (ok: bool, ghost w: Wrote)
      requires Base() && IsName(d)
      requires len >= 12
      modifies `len, `names, `on, `sp, `ws, buf
      ensures buf.Length == 65535 && old(len) <= len <= 65535 && Msg()[..old(len)] == old(Msg())
      ensures ok ==> Base() && on == old(on) + Span(old(len), len) && ws == old(ws) + [w]
      ensures ok ==> w.pos == old(len) && w.d == d && w.end == len && WroteOk(Msg(), on, w)
      ensures if ok then len <= old(len) + |d| + 1 else old(len) + |d| + 1 > 65535
    {
      hide Writing, TableOk, AllWrote, Completed, Equal;
      ghost var m0, on0, sp0, n0 := Msg(), on, sp, |names|;
      ghost var bs: seq<nat> := [];
      WritingStart(m0, on0, sp0, names, d);
      var i: nat := 0;
      while d[i] != 0
        invariant buf.Length == 65535 && |m0| <= len <= 65535 && i < |d| && n0 <= |names| <= NAMES
        invariant Writing(m0, on0, sp0, n0, Msg(), names, bs, d, i) && on == on0 && ws == old(ws)
        invariant Msg()[..|m0|] == m0 && len == |m0| + i
        decreases |d| - i
      {
        ghost var m := Msg();
        var t := Search(d[i..]);
        if t < |names| {
          ghost var sp', s := CompletePointer(m0, on0, sp0, n0, m, names, bs, d, i, t);
          PointerBytes(names[t].ptr);
          ok, w := EndName(ToBe16(49152 + names[t].ptr), m0, on0, sp', s, d);
          return;
        }
        var add := |d| - i <= 255 && len < 16384 && |names| < NAMES;
        WritingLabel(m0, on0, sp0, n0, m, names, bs, d, i, add);
        if add {
          names := names + [Known(d[i..], len)];
          bs := bs + [i];
        }
        var n: nat := 1 + (d[i] as int);
        ok := AddBytes(d[i..i + n]);
        PrefixStays(m0, m, Msg());
        if !ok {
          w := Wrote(0, [], Spelling([], 0), 0);
          return;
        }
        i := i + n;
      }
      ghost var sp', s := CompleteZero(m0, on0, sp0, n0, Msg(), names, bs, d, i);
      assert d[i..i + 1] == [0];
      ok, w := EndName(d[i..i + 1], m0, on0, sp', s, d);
    }

    /** Lines 37 and 51: the bytes that end the name. */
    method EndName(more: seq<byte>, ghost m0: seq<byte>, ghost on0: set<nat>, ghost sp': seq<Spelling>,
                   ghost s: Spelling, ghost d: seq<byte>)
      returns (ok: bool, ghost w: Wrote)
      requires buf.Length == 65535 && 12 <= |m0| <= len <= 65535 && |names| <= NAMES && on == on0
      requires (forall x :: x in on0 ==> 12 <= x < |m0|) && AllWrote(m0, on0, ws) && Msg()[..|m0|] == m0
      requires Completed(m0, on0, Msg() + more, names, sp', d, s)
      modifies `len, `on, `sp, `ws, buf
      ensures buf.Length == 65535 && |m0| <= len <= 65535 && Msg()[..|m0|] == m0
      ensures ok ==> Base() && on == on0 + Span(|m0|, len) && ws == old(ws) + [w]
      ensures ok ==> w == Wrote(|m0|, d, s, len) && WroteOk(Msg(), on, w)
      ensures ok <==> |more| <= 65535 - old(len)
      ensures ok ==> len == old(len) + |more|
    {
      hide AllWrote, Completed, TableOk, Written;
      w := Wrote(0, [], s, 0);
      ghost var m := Msg();
      ok := AddBytes(more);
      PrefixStays(m0, m, Msg());
      if ok {
        sp := sp';
        w := Close(m0, on0, s, d);
      }
    }

    /** `response_addbytes` in the course of a message: the names stay readable. */
    method Append(s: seq<byte>) returns (ok: bool)
      requires Base()
      modifies `len, buf
      ensures buf.Length == 65535 && old(len) <= len <= 65535
      ensures ok <==> |s| <= 65535 - old(len)
      ensures ok ==> Base() && len == old(len) + |s| && Msg() == old(Msg()) + s
    {
      hide TableOk, AllWrote;
      ghost var m := Msg();
      ok := AddBytes(s);
      if ok {
        assert Msg()[..|m|] == m;
        Extended(m, Msg(), on, names, sp, ws);
      }
    }

    /** `response_query`, lines 54-64. */
    method Query(q: seq<byte>, qtype: seq<byte>, qclass: seq<byte>) returns (ok: bool)
      requires buf.Length == 65535 && len <= 65535 && IsName(q) && |qtype| == 2 && |qclass| == 2
      modifies this, buf
      ensures buf.Length == 65535 && len <= 65535 && hidettl == old(hidettl)
      ensures ok ==> Valid() && !open && recs == [] && tctarget == len && |ws| == 1 && ws[0].d == q
      ensures ok ==> Msg()[..12] == [0, 0, 0x81, 0x80, 0, 1, 0, 0, 0, 0, 0, 0] && ask == qtype + qclass
      ensures !ok ==> |q| + 17 > 65535
    {
      hide AllWrote, TableOk, WroteOk, IsName, SkipName, Question, Counts;
      Restart();
      ghost var m := Msg();
      ghost var w;
      ok, w := AddName(q);
      if !ok { return; }
      ghost var m1 := Msg();
      WroteEnds(m1, on, w);
      ok := TypeAndClass(qtype, qclass);
      if !ok { return; }
      tctarget := len;
      ask := qtype + qclass;
      QuestionDone(m, m1, Msg(), ws, tctarget, ask);
    }

    /** Lines 60-61. */
    method TypeAndClass(qtype: seq<byte>, qclass: seq<byte>) returns (ok: bool)
      requires Base() && |qtype| == 2 && |qclass| == 2
      modifies `len, buf
      ensures buf.Length == 65535 && len <= 65535
      ensures ok <==> 4 <= 65535 - old(len)
      ensures ok ==> Base() && len == old(len) + 4 && Msg()[..old(len)] == old(Msg())
                     && Msg()[old(len)..] == qtype + qclass
    {
      hide AllWrote, TableOk;
      ok := Append(qtype);
      if !ok { return; }
      ok := Append(qclass);
    }

    /** Lines 56-58: an empty table and a fresh header. */
    method Restart()
      requires buf.Length == 65535
      modifies this, buf
      ensures Base() && !open && recs == [] && ws == [] && hidettl == old(hidettl)
      ensures Msg() == [0, 0, 0x81, 0x80, 0, 1, 0, 0, 0, 0, 0, 0]
    {
      len, names := 0, [];
      on, sp, ws, recs, open := {}, [], [], [], false;
      var ok := AddBytes([0, 0, 0x81, 0x80, 0, 1, 0, 0, 0, 0, 0, 0]);
    }

    /** Lines 77-83: the ten bytes after the name of a record, the data length still zero. */
    method FixedPart(typ: seq<byte>, ttl: u32) returns (ok: bool)
      requires Base() && |typ| == 2
      modifies `len, buf
      ensures buf.Length == 65535 && len <= 65535
      ensures ok ==> Base() && len == old(len) + 10
      ensures ok ==> Msg() == old(Msg()) + (Fixed(typ, if hidettl then 0 else ttl) + [0, 0])
      ensures ok <==> 10 <= 65535 - old(len)
    {
      hide TableOk, AllWrote;
      ok := Append(typ);
      if !ok { return; }
      ok := Append([0, 1]);
      if !ok { return; }
      var t := if hidettl then 0 else ttl;
      ok := Append(ToBe32(t));
      if !ok { return; }
      ok := Append([0, 0]);
    }

    /** The bytes `response_rstart` writes. */
    method Begin(d: seq<byte>, typ: seq<byte>, ttl: u32) returns (ok: bool, ghost w: Wrote)
      requires Base() && IsName(d) && |typ| == 2 && len >= 12
      modifies `len, `names, `on, `sp, `ws, buf
      ensures buf.Length == 65535 && len <= 65535
      ensures ok ==> Base() && ws == old(ws) + [w] && w.pos == old(len) && w.d == d
      ensures ok ==> Begun(old(Msg()), Msg(), on, Fixed(typ, if hidettl then 0 else ttl))
      ensures if ok then len <= old(len) + |d| + 11 else old(len) + |d| + 11 > 65535
    {
      hide TableOk, AllWrote, Fixed, WroteOk, IsName, SkipName, Begun;
      ghost var m := Msg();
      ok, w := AddName(d);
      if !ok { return; }
      ghost var m1 := Msg();
      WroteEnds(m1, on, w);
      ok := FixedPart(typ, ttl);
      if !ok { return; }
      BegunHere(m, m1, Msg(), on, Fixed(typ, if hidettl then 0 else ttl));
    }

    /** `response_rstart`, lines 74-86. */
    method RStart(d: seq<byte>, typ: seq<byte>, ttl: u32) returns (ok: bool)
      requires Valid() && !open && IsName(d) && |typ| == 2
      modifies `len, `names, `on, `sp, `ws, `dpos, `open, `opos, `oname, buf
      ensures buf.Length == 65535 && len <= 65535
      ensures ok ==> Valid() && open && opos == old(len) < len - 10 && dpos == len && Msg()[..opos] == old(Msg())
      ensures ok ==> Msg()[dpos - 10..dpos - 2] == Fixed(typ, if hidettl then 0 else ttl)
      ensures ok ==> |ws| == |old(ws)| + 1 && ws[..|old(ws)|] == old(ws) && oname == |old(ws)| && ws[oname].pos == opos
                     && ws[oname].d == d
      ensures if ok then len <= old(len) + |d| + 11 else old(len) + |d| + 11 > 65535
    {
      hide TableOk, AllWrote, Chain, Counts, Owners, Ordered, Question, OpenRecord, Fixed, IsName, Begun;
      ghost var m, w0, f := Msg(), ws, Fixed(typ, if hidettl then 0 else ttl);
      ghost var w;
      ok, w := Begin(d, typ, ttl);
      if !ok { return; }
      Started(m, Msg(), on, w0, w, tctarget, recs, f, ask);
      dpos := len;
      open, opos, oname := true, |m|, |w0|;
    }

    /** `response_addbytes` for the data of a record. */
    method AddData(s: seq<byte>) returns (ok: bool)
      requires Valid() && open
      modifies `len, buf
      ensures buf.Length == 65535 && len <= 65535
      ensures ok <==> |s| <= 65535 - old(len)
      ensures ok ==> Valid() && Msg() == old(Msg()) + s
    {
      hide TableOk, AllWrote, Chain, Counts, Owners;
      ghost var m := Msg();
      ok := Append(s);
      if ok {
        assert Msg()[..|m|] == m;
        ExtendedRecords(m, Msg(), ws, tctarget, recs, opos, ask);
        OpenStays(m, Msg(), on, on, opos, dpos);
      }
    }

    /** `response_addname` for the data of a record. */
    method AddDataName(d: seq<byte>) returns (ok: bool)
      requires Valid() && open && IsName(d)
      modifies `len, `names, `on, `sp, `ws, buf
      ensures buf.Length == 65535 && len <= 65535
      ensures ok ==> Valid() && |ws| == |old(ws)| + 1 && ws[..|old(ws)|] == old(ws)
      ensures ok ==> ws[|ws| - 1].pos == old(len) && ws[|ws| - 1].d == d && ws[|ws| - 1].end == len
      ensures ok ==> old(len) <= len <= old(len) + |d| + 1 && Msg()[..old(len)] == old(Msg())
      ensures !ok ==> old(len) + |d| + 1 > 65535
    {
      hide TableOk, AllWrote, Chain, Counts, Owners;
      ghost var m, w0, on0 := Msg(), ws, on;
      ghost var w;
      ok, w := AddName(d);
      if ok {
        ExtendedRecords(m, Msg(), w0, tctarget, recs, opos, ask);
        OpenStays(m, Msg(), on0, on, opos, dpos);
        QuestionMore(Msg(), w0, w, tctarget, ask);
        OwnersMore(w0, w, recs);
      }
    }

    /** `response_rfinish`, lines 88-91: the data length is filled in and the record counted. */
    method RFinish(x: nat)
      requires Valid() && open && x in {ANSWER, AUTHORITY, ADDITIONAL} && (recs == [] || recs[|recs| - 1].section <= x)
      modifies `recs, `open, buf
      ensures Valid() && !open
      ensures recs == old(recs) + [Rec(Raw(opos, old(Msg())[dpos - 10..dpos - 2], dpos, len), x, oname)]
      ensures forall i :: 12 <= i < len && i != dpos - 2 && i != dpos - 1 ==> Msg()[i] == old(Msg())[i]
    {
      hide TableOk, AllWrote, Chain, Ordered, Counts, Question, OpenRecord, Owners;
      ghost var a := Msg();
      OpenRange(a, on, opos, dpos);
      CountRoom(a, recs, tctarget, opos);
      Patch(x);
      ghost var r := Rec(Raw(opos, a[dpos - 10..dpos - 2], dpos, len), x, oname);
      FinishedNames(a, Msg(), on, names, sp, ws, opos, dpos, x);
      FinishedRecord(a, Msg(), on, ws, tctarget, recs, opos, dpos, x, oname, ask);
      FinishedCounts(a, Msg(), recs, r, dpos, x);
      OwnersNext(ws, recs, r);
      recs := recs + [r];
      open := false;
    }

    /** The two lines of `response_rfinish`. */
    method Patch(x: nat)
      requires buf.Length == 65535 && 23 <= dpos <= len <= 65535 && x in {ANSWER, AUTHORITY, ADDITIONAL}
               && Be16(Msg(), x) < 65535
      modifies buf
      ensures Patched(old(Msg()), Msg(), dpos, x)
    {
      hide ToBe16, Patched;
      ghost var a := Msg();
      WriteLength();
      ghost var b := Msg();
      CountUp(a[x], a[x + 1]);
      buf[x + 1] := ((buf[x + 1] as int) + 1) % 256;
      if buf[x + 1] == 0 {
        buf[x] := ((buf[x] as int) + 1) % 256;
      }
      assert forall i :: 0 <= i < |a| && i != x && i != x + 1 ==> Msg()[i] == b[i];
      PatchDone(a, Msg(), dpos, x);
    }

    method WriteLength()
      requires buf.Length == 65535 && 23 <= dpos <= len <= 65535
      modifies buf
      ensures forall i :: 0 <= i < len && i != dpos - 2 && i != dpos - 1 ==> buf[i] == old(buf[i])
      ensures buf[dpos - 2] as int * 256 + buf[dpos - 1] == len - dpos
    {
      hide ToBe16;
      var l := ToBe16(len - dpos);
      Be16Back(len - dpos);
      buf[dpos - 2] := l[0];
      buf[dpos - 1] := l[1];
    }

    /** `response_cname`, lines 93-98. */
    method Cname(c: seq<byte>, d: seq<byte>, ttl: u32) returns (ok: bool)
      requires Valid() && !open && IsName(c) && IsName(d) && (recs == [] || recs[|recs| - 1].section == ANSWER)
      modifies this, buf
      ensures !ok ==> old(len) + |c| + |d| + 12 > 65535
      ensures buf.Length == 65535 && len <= 65535 && hidettl == old(hidettl) && tctarget == old(tctarget)
      ensures ok ==> Valid() && !open && |ws| == |old(ws)| + 2 && ws[..|old(ws)|] == old(ws) && ask == old(ask)
      ensures ok ==> ws[|ws| - 2].d == c && ws[|ws| - 1].d == d
      ensures ok ==> recs == old(recs)
                             + [Rec(Raw(ws[|ws| - 2].pos, Fixed([0, 5], if hidettl then 0 else ttl), ws[|ws| - 1].pos,
                                        ws[|ws| - 1].end), ANSWER, |ws| - 2)]
    {
      hide TableOk, AllWrote, Chain, Counts, Ordered, Owners, Fixed, Question, OpenRecord;
      ok := RStart(c, [0, 5], ttl);
      if !ok { return; }
      ghost var m := Msg();
      ok := AddDataName(d);
      if !ok { return; }
      WindowStays(m, Msg(), dpos - 10, dpos - 2);
      RFinish(ANSWER);
    }

    /** `response_tc`, lines 113-117: the header and the question, with every count zero. */
    method Tc()
      requires Valid()
      modifies `len, buf
      ensures len == old(tctarget)
      ensures Question(Msg(), old(ws), len, ask) && Counts(Msg(), []) && Records(Msg(), len, 0) == (len, [])
      ensures forall i :: 12 <= i < len ==> Msg()[i] == old(Msg())[i]
      ensures Msg()[2] == Or(old(Msg())[2], 2) && Msg()[..2] == old(Msg())[..2] && Msg()[3] == old(Msg())[3]
    {
      hide TableOk, AllWrote, Chain, Owners, Question, SkipName, Or;
      ghost var a := Msg();
      QuestionRange(a, ws, tctarget, ask);
      var b2: int := buf[2];
      OrByte(buf[2], 2);
      buf[2] := Or(b2, 2);
      len := tctarget;
      ZeroCounts();
      ghost var b := Msg();
      assert |b| == tctarget && b[4] == a[4] && b[5] == a[5];
      assert forall i :: 6 <= i < 12 ==> b[i] == 0;
      assert forall i :: 12 <= i < |b| ==> b[i] == a[i];
      Truncated(a, b, ws, ask);
    }

    /** Line 116. */
    method ZeroCounts()
      requires buf.Length >= 12
      modifies buf
      ensures forall j :: 0 <= j < buf.Length ==> buf[j] == if 6 <= j < 12 then 0 else old(buf[j])
    {
      for i := 6 to 12
        invariant forall j :: 0 <= j < buf.Length ==> buf[j] == if 6 <= j < i then 0 else old(buf[j])
      {
        buf[i] := 0;
      }
    }

    /** `response_nxdomain`, lines 100-103. */
    method Nxdomain()
      requires Valid()
      modifies buf
      ensures Valid() && Msg()[2] == Or(old(Msg())[2], 4) && Msg()[3] == Or(old(Msg())[3], 3)
      ensures Msg()[..2] == old(Msg())[..2] && Msg()[4..] == old(Msg())[4..]
    {
      hide Base;
      HeaderLong();
      SetHeader(buf[..2], 4, 3);
    }

    /** `response_servfail`, lines 105-107. */
    method Servfail()
      requires Valid()
      modifies buf
      ensures Valid() && Msg()[2] == old(Msg())[2] && Msg()[3] == Or(old(Msg())[3], 2)
      ensures Msg()[..2] == old(Msg())[..2] && Msg()[4..] == old(Msg())[4..]
    {
      hide Base;
      HeaderLong();
      SetHeader(buf[..2], 0, 2);
    }

    /** `response_id`, lines 109-111. */
    method Id(id: seq<byte>)
      requires Valid() && |id| == 2
      modifies buf
      ensures Valid() && Msg() == id + old(Msg())[2..]
    {
      hide Base;
      HeaderLong();
      ghost var m := Msg();
      SetHeader(id, 0, 0);
      assert Msg() == id + m[2..];
    }

    lemma HeaderLong()
      requires Valid()
      ensures 12 <= len <= buf.Length
    {
    }

    /** Only the first four bytes of the message change. */
    method SetHeader(id: seq<byte>, flags: byte, rcode: byte)
      requires Valid() && |id| == 2
      modifies buf
      ensures Valid()
      ensures Msg() == id + [Or(old(Msg())[2], flags), Or(old(Msg())[3], rcode)] + old(Msg())[4..]
    {
      hide TableOk, AllWrote, Chain, Question, Counts, Owners, Ordered, OpenRecord;
      HeaderLong();
      ghost var a := Msg();
      if open { OpenRange(a, on, opos, dpos); }
      WriteFront(id, flags, rcode);
      HeaderSet(a, Msg(), on, names, sp, ws);
      HeaderSetRecords(a, Msg(), on, ws, tctarget, recs, if open then opos else len, open, dpos, ask);
    }

    method WriteFront(id: seq<byte>, flags: byte, rcode: byte)
      requires buf.Length == 65535 && 12 <= len <= 65535 && |id| == 2
      modifies buf
      ensures Msg() == id + [Or(old(Msg())[2], flags), Or(old(Msg())[3], rcode)] + old(Msg())[4..]
    {
      hide Or;
      OrByte(buf[2], flags);
      OrByte(buf[3], rcode);
      buf[0] := id[0];
      buf[1] := id[1];
      buf[2] := Or(buf[2] as int, flags as int);
      buf[3] := Or(buf[3] as int, rcode as int);
    }

    /**
    A finished message parses: the records counted in the header are exactly those added, in order, to the
    last byte.
    */
    lemma Parses()
      requires Valid() && !open
      ensures Records(Msg(), tctarget, Be16(Msg(), ANSWER) + Be16(Msg(), AUTHORITY) + Be16(Msg(), ADDITIONAL))
              == (len, Raws(recs))
      ensures Msg()[4..6] == [0, 1] && SkipName(Msg(), 12) + 4 == tctarget
    {
      ChainParses(Msg(), recs, tctarget, len);
      CountsAll(recs);
    }

    /**
    Every name written so far is read back by `dns_packet_getname`, up to case, and ends where the writer
    stopped.
    */
    method ReadName(pos: nat, ghost i: nat) returns (r: nat, name: seq<byte>)
      requires Base() && i < |ws| && ws[i].pos == pos
      ensures |ws[i].d| <= 255 ==> r == ws[i].end > 0 && Equal(name, ws[i].d)
      ensures |ws[i].d| > 255 ==> r == 0
    {
      hide Equal, TableOk, SkipName;
      ghost var w := ws[i];
      assert WroteOk(Msg(), on, w);
      r, name := ReadBack(buf[..len], on, pos, w.d, w.s.spelled, w.s.jumps);
    }

    /** The name is complete: its bytes join the name bytes of the message. */
    ghost method Close(m0: seq<byte>, on0: set<nat>, s: Spelling, d: seq<byte>) returns (w: Wrote)
      requires buf.Length == 65535 && 12 <= |m0| <= len <= 65535 && |names| <= NAMES && on == on0
      requires (forall x :: x in on0 ==> 12 <= x < |m0|) && AllWrote(m0, on0, ws)
      requires Completed(m0, on0, Msg(), names, sp, d, s)
      modifies `on, `ws
      ensures Base() && on == on0 + Span(|m0|, len) && ws == old(ws) + [w]
      ensures w == Wrote(|m0|, d, s, len) && WroteOk(Msg(), on, w)
    {
      hide TableOk, Written;
      w := Wrote(|m0|, d, s, len);
      on := on0 + Span(|m0|, len);
      KeepsPrefix(m0, Msg(), on0);
      AllWroteKeeps(m0, Msg(), on0, on, ws);
      ws := ws + [w];
    }
  }

  /** The header of a message with one question, and the question from byte 12 to `end`. */
  ghost predicate Question(msg: seq<byte>, ws: seq<Wrote>, end: nat, ask: seq<byte>)
  {
    && 12 <= end <= |msg| && msg[4..6] == [0, 1]
    && |ws| > 0 && ws[0].pos == 12 && SkipName(msg, 12) == ws[0].end && ws[0].end + 4 == end && msg[end - 4..end] == ask
  }

  lemma QuestionRange(msg: seq<byte>, ws: seq<Wrote>, end: nat, ask: seq<byte>)
    requires Question(msg, ws, end, ask)
    ensures 12 <= end <= |msg|
  {
  }

  lemma Truncated(a: seq<byte>, b: seq<byte>, ws: seq<Wrote>, ask: seq<byte>)
    requires 12 <= |b| <= |a| && Question(a, ws, |b|, ask) && b[4] == a[4] && b[5] == a[5]
    requires (forall i :: 6 <= i < 12 ==> b[i] == 0) && forall i :: 12 <= i < |b| ==> b[i] == a[i]
    ensures Question(b, ws, |b|, ask) && Counts(b, []) && Records(b, |b|, 0) == (|b|, [])
  {
    hide SkipName, Be16;
    var n := |b|;
    assert Agree(a, b, n);
    SkipSame(a, b, 12, n);
    SkipForward(a, 12);
    assert b[4..6] == [b[4], b[5]] && a[4..6] == [a[4], a[5]];
    var s, t := b[n - 4..n], a[n - 4..n];
    forall i | 0 <= i < 4 ensures s[i] == t[i] {}
    assert s == t;
    ZeroCounts(b);
  }

  lemma ZeroCounts(b: seq<byte>)
    requires |b| >= 12 && forall i :: 6 <= i < 12 ==> b[i] == 0
    ensures Counts(b, []) && Records(b, |b|, 0) == (|b|, [])
  {
  }

  /** A record whose data is being written: its length field is not part of a name. */
  ghost predicate OpenRecord(msg: seq<byte>, on: set<nat>, opos: nat, dpos: nat)
  {
    && 12 <= opos < SkipName(msg, opos) && SkipName(msg, opos) + 10 == dpos <= |msg|
    && dpos - 2 !in on && dpos - 1 !in on
  }

  lemma OpenRange(msg: seq<byte>, on: set<nat>, opos: nat, dpos: nat)
    requires OpenRecord(msg, on, opos, dpos)
    ensures 12 <= opos && 23 <= dpos <= |msg| && opos <= dpos
  {
  }

  /** Bytes appended to a message change nothing about what is there. */
  lemma Extended(a: seq<byte>, b: seq<byte>, on: set<nat>, names: seq<Known>, sp: seq<Spelling>, ws: seq<Wrote>)
    requires |a| <= |b| && b[..|a|] == a && TableOk(a, on, names, sp) && AllWrote(a, on, ws)
    ensures TableOk(b, on, names, sp) && AllWrote(b, on, ws)
  {
    hide TableOk, AllWrote;
    KeepsPrefix(a, b, on);
    TableKeeps(a, b, on, on, names, sp);
    AllWroteKeeps(a, b, on, on, ws);
  }

  lemma ExtendedRecords(a: seq<byte>, b: seq<byte>, ws: seq<Wrote>, tctarget: nat, recs: seq<Rec>, end: nat,
                        ask: seq<byte>)
    requires |a| <= |b| && b[..|a|] == a && Question(a, ws, tctarget, ask) && Chain(a, recs, tctarget, end)
             && end <= |a| && Counts(a, recs)
    ensures Question(b, ws, tctarget, ask) && Chain(b, recs, tctarget, end) && Counts(b, recs)
  {
    assert forall i :: 0 <= i < |a| ==> b[i] == b[..|a|][i] == a[i];
    assert Agree(a, b, |a|) && Agree(a, b, end);
    ChainSame(a, b, recs, tctarget, end);
    SkipSame(a, b, 12, |a|);
    assert b[4..6] == a[4..6] && b[tctarget - 4..tctarget] == a[tctarget - 4..tctarget];
  }

  lemma QuestionDone(m: seq<byte>, m1: seq<byte>, msg: seq<byte>, ws: seq<Wrote>, end: nat, ask: seq<byte>)
    requires m == [0, 0, 0x81, 0x80, 0, 1, 0, 0, 0, 0, 0, 0] && 12 < |m1| && m1[..12] == m
    requires |msg| == |m1| + 4 == end && msg[..|m1|] == m1 && msg[|m1|..] == ask
    requires |ws| > 0 && ws[0].pos == 12 && SkipName(m1, 12) == ws[0].end == |m1|
    ensures Question(msg, ws, end, ask) && Chain(msg, [], end, end) && Counts(msg, []) && msg[..12] == m
  {
    assert forall i :: 0 <= i < |m1| ==> msg[i] == msg[..|m1|][i] == m1[i];
    assert forall i :: 0 <= i < 12 ==> m1[i] == m1[..12][i] == m[i];
    assert Agree(m1, msg, |m1|);
    SkipSame(m1, msg, 12, |m1|);
  }

  lemma NameEndStays(a: seq<byte>, b: seq<byte>, pos: nat)
    requires |a| <= |b| && b[..|a|] == a && 12 <= pos && SkipName(a, pos) == |a| > 0
    ensures SkipName(b, pos) == |a|
  {
    assert forall i :: 0 <= i < |a| ==> b[i] == b[..|a|][i] == a[i];
    assert Agree(a, b, |a|);
    SkipSame(a, b, pos, |a|);
  }

  lemma QuestionMore(msg: seq<byte>, ws: seq<Wrote>, w: Wrote, end: nat, ask: seq<byte>)
    requires Question(msg, ws, end, ask)
    ensures Question(msg, ws + [w], end, ask)
  {
  }

  lemma OpenStays(a: seq<byte>, b: seq<byte>, on: set<nat>, on': set<nat>, opos: nat, dpos: nat)
    requires |a| <= |b| && b[..|a|] == a && OpenRecord(a, on, opos, dpos) && forall x :: x in on' && x < |a| ==> x in on
    ensures OpenRecord(b, on', opos, dpos)
  {
    assert forall i :: 0 <= i < |a| ==> b[i] == b[..|a|][i] == a[i];
    assert Agree(a, b, |a|);
    SkipSame(a, b, opos, |a|);
  }

  /** A section cannot count more records than fit in the buffer. */
  lemma CountRoom(msg: seq<byte>, recs: seq<Rec>, tctarget: nat, end: nat)
    requires Chain(msg, recs, tctarget, end) && Counts(msg, recs) && end <= 65535
    ensures Be16(msg, 6) < 65535 && Be16(msg, 8) < 65535 && Be16(msg, 10) < 65535
  {
    ChainForward(msg, recs, tctarget, end);
  }

  /** The message after `response_rfinish`, given as the bytes it changes. */
  ghost predicate Patched(a: seq<byte>, b: seq<byte>, dpos: nat, x: nat)
  {
    && |b| == |a| && 23 <= dpos <= |a| <= 65535 && x in {ANSWER, AUTHORITY, ADDITIONAL}
    && (forall i :: 0 <= i < |a| && i != dpos - 2 && i != dpos - 1 && i != x && i != x + 1 ==> b[i] == a[i])
    && Be16(b, dpos - 2) == |a| - dpos && Be16(b, x) == Be16(a, x) + 1
  }

  lemma PatchDone(a: seq<byte>, b: seq<byte>, dpos: nat, x: nat)
    requires |b| == |a| && 23 <= dpos <= |a| <= 65535 && x in {ANSWER, AUTHORITY, ADDITIONAL}
    requires forall i :: 0 <= i < |a| && i != dpos - 2 && i != dpos - 1 && i != x && i != x + 1 ==> b[i] == a[i]
    requires b[dpos - 2] as int * 256 + b[dpos - 1] == |a| - dpos
    requires b[x] as int * 256 + b[x + 1] == a[x] as int * 256 + a[x + 1] + 1
    ensures Patched(a, b, dpos, x)
  {
  }

  lemma FinishedNames(a: seq<byte>, b: seq<byte>, on: set<nat>, names: seq<Known>, sp: seq<Spelling>, ws: seq<Wrote>,
                      opos: nat, dpos: nat, x: nat)
    requires Patched(a, b, dpos, x) && OpenRecord(a, on, opos, dpos) && forall p :: p in on ==> 12 <= p < |a|
    requires TableOk(a, on, names, sp) && AllWrote(a, on, ws)
    ensures TableOk(b, on, names, sp) && AllWrote(b, on, ws)
  {
    hide TableOk, AllWrote;
    assert Keeps(a, b, on);
    TableKeeps(a, b, on, on, names, sp);
    AllWroteKeeps(a, b, on, on, ws);
  }

  lemma FinishedRecord(a: seq<byte>, b: seq<byte>, on: set<nat>, ws: seq<Wrote>, tctarget: nat, recs: seq<Rec>,
                       opos: nat, dpos: nat, x: nat, name: nat, ask: seq<byte>)
    requires Patched(a, b, dpos, x) && OpenRecord(a, on, opos, dpos)
    requires Question(a, ws, tctarget, ask) && Chain(a, recs, tctarget, opos) && opos <= |a|
    ensures Question(b, ws, tctarget, ask)
    ensures Chain(b, recs + [Rec(Raw(opos, a[dpos - 10..dpos - 2], dpos, |a|), x, name)], tctarget, |b|)
  {
    hide Chain, Be16;
    assert Agree(a, b, opos) && Agree(a, b, dpos - 2);
    ChainSame(a, b, recs, tctarget, opos);
    ChainForward(a, recs, tctarget, opos);
    SkipSame(a, b, 12, dpos - 2);
    SkipForward(a, 12);
    PatchedQuestion(a, b, dpos, x, tctarget);
    FinishedRaw(a, b, on, opos, dpos, x);
    ChainAppend(b, recs, tctarget, opos, Rec(Raw(opos, a[dpos - 10..dpos - 2], dpos, |a|), x, name));
  }

  lemma PatchedQuestion(a: seq<byte>, b: seq<byte>, dpos: nat, x: nat, end: nat)
    requires Patched(a, b, dpos, x) && 16 <= end && end + 11 <= dpos <= |a|
    ensures b[4..6] == a[4..6] && b[end - 4..end] == a[end - 4..end]
  {
    forall i | 0 <= i < |a| && i != dpos - 2 && i != dpos - 1 && i != x && i != x + 1 ensures b[i] == a[i] {}
  }

  lemma FinishedRaw(a: seq<byte>, b: seq<byte>, on: set<nat>, opos: nat, dpos: nat, x: nat)
    requires Patched(a, b, dpos, x) && OpenRecord(a, on, opos, dpos)
    ensures RecordAt(b, Raw(opos, a[dpos - 10..dpos - 2], dpos, |a|))
  {
    hide SkipName;
    assert Agree(a, b, dpos - 2);
    SkipSame(a, b, opos, dpos - 2);
    assert b[dpos - 10..dpos - 2] == a[dpos - 10..dpos - 2];
  }

  lemma FinishedCounts(a: seq<byte>, b: seq<byte>, recs: seq<Rec>, r: Rec, dpos: nat, x: nat)
    requires Patched(a, b, dpos, x) && Counts(a, recs) && Ordered(recs) && r.section == x
    requires recs == [] || recs[|recs| - 1].section <= x
    ensures Counts(b, recs + [r]) && Ordered(recs + [r])
  {
    CountAppend(recs, r, ANSWER);
    CountAppend(recs, r, AUTHORITY);
    CountAppend(recs, r, ADDITIONAL);
  }

  /** Lines 89-90: a big-endian count goes up by one, with the carry. */
  lemma CountUp(hi: byte, lo: byte)
    requires (hi as int) * 256 + lo < 65535
    ensures var lo' := ((lo as int) + 1) % 256;
            var hi' := if lo' == 0 then ((hi as int) + 1) % 256 else hi as int;
            hi' * 256 + lo' == (hi as int) * 256 + lo + 1
  {
  }

  lemma Be16Back(v: nat)
    requires v < 65536
    ensures Be16(ToBe16(v), 0) == v
  {
  }

  lemma OrByte(a: byte, b: byte)
    ensures Or(a, b) < 256
  {
    Pow2At8();
    OrBound(a, b, 8);
  }

  /** Only the first four bytes of the header changed: every name stays readable. */
  lemma HeaderSet(a: seq<byte>, b: seq<byte>, on: set<nat>, names: seq<Known>, sp: seq<Spelling>, ws: seq<Wrote>)
    requires |a| == |b| && (forall i :: 4 <= i < |a| ==> b[i] == a[i]) && forall p :: p in on ==> 12 <= p < |a|
    requires TableOk(a, on, names, sp) && AllWrote(a, on, ws)
    ensures TableOk(b, on, names, sp) && AllWrote(b, on, ws)
  {
    hide TableOk, AllWrote;
    assert Keeps(a, b, on);
    TableKeeps(a, b, on, on, names, sp);
    AllWroteKeeps(a, b, on, on, ws);
  }

  lemma HeaderSetRecords(a: seq<byte>, b: seq<byte>, on: set<nat>, ws: seq<Wrote>, tctarget: nat, recs: seq<Rec>,
                         end: nat, open: bool, dpos: nat, ask: seq<byte>)
    requires |a| == |b| && (forall i :: 4 <= i < |a| ==> b[i] == a[i]) && end <= |a|
    requires Question(a, ws, tctarget, ask) && Chain(a, recs, tctarget, end) && Counts(a, recs)
             && (open ==> OpenRecord(a, on, end, dpos))
    ensures Question(b, ws, tctarget, ask) && Chain(b, recs, tctarget, end) && Counts(b, recs)
            && (open ==> OpenRecord(b, on, end, dpos))
  {
    assert Agree(a, b, |a|) && Agree(a, b, end);
    ChainSame(a, b, recs, tctarget, end);
    SkipSame(a, b, 12, |a|);
    assert b[4..6] == a[4..6] && b[tctarget - 4..tctarget] == a[tctarget - 4..tctarget];
    if open { SkipSame(a, b, end, |a|); }
  }

  /** The message after `response_rstart`: what was there, a name and ten bytes. */
  ghost predicate Begun(m: seq<byte>, msg: seq<byte>, on: set<nat>, f: seq<byte>)
  {
    && |m| + 10 < |msg| && msg[..|m|] == m && SkipName(msg, |m|) + 10 == |msg|
    && msg[|msg| - 10..|msg| - 2] == f && |msg| - 2 !in on && |msg| - 1 !in on
  }

  lemma BegunHere(m: seq<byte>, m1: seq<byte>, msg: seq<byte>, on: set<nat>, f: seq<byte>)
    requires 12 <= |m| < |m1| && m1[..|m|] == m && SkipName(m1, |m|) == |m1|
    requires |f| == 8 && msg == m1 + (f + [0, 0]) && forall x :: x in on ==> x < |m1|
    ensures Begun(m, msg, on, f)
  {
    assert msg[..|m1|] == m1;
    PrefixStays(m, m1, msg);
    NameEndStays(m1, msg, |m|);
  }

  lemma Started(m: seq<byte>, msg: seq<byte>, on: set<nat>, ws: seq<Wrote>, w: Wrote, tctarget: nat, recs: seq<Rec>,
                f: seq<byte>, ask: seq<byte>)
    requires Question(m, ws, tctarget, ask) && Chain(m, recs, tctarget, |m|) && Counts(m, recs) && Owners(ws, recs)
    requires Begun(m, msg, on, f)
    ensures Question(msg, ws + [w], tctarget, ask) && Chain(msg, recs, tctarget, |m|) && Counts(msg, recs)
            && Owners(ws + [w], recs)
    ensures |m| + 10 < |msg| && OpenRecord(msg, on, |m|, |msg|) && msg[|msg| - 10..|msg| - 2] == f && msg[..|m|] == m
  {
    hide Chain, Counts, Owners;
    ExtendedRecords(m, msg, ws, tctarget, recs, |m|, ask);
    QuestionMore(msg, ws, w, tctarget, ask);
    OwnersMore(ws, w, recs);
  }

  lemma PointerBytes(ptr: nat)
    requires ptr < 16384
    ensures ToBe16(49152 + ptr) == PointerTo(ptr)
  {
  }

  lemma PrefixStays(m0: seq<byte>, a: seq<byte>, b: seq<byte>)
    requires |m0| <= |a| <= |b| && a[..|m0|] == m0 && b[..|a|] == a
    ensures b[..|m0|] == m0
  {
    assert b[..|m0|] == b[..|a|][..|m0|];
  }

  /** The state of `response_addname` before a label: what was there, the labels written, the entries remembered. */
  ghost predicate Writing(m0: seq<byte>, on0: set<nat>, sp0: seq<Spelling>, n0: nat, msg: seq<byte>, names: seq<Known>,
                          bs: seq<nat>,
                          d: seq<byte>, i: nat)
  {
    && IsName(d) && n0 <= |names| && |msg| >= |m0| && msg[..|m0|] == m0
    && TableOk(m0, on0, names[..n0], sp0) && (forall x :: x in on0 ==> 12 <= x < |m0|)
    && Partial(msg, on0 + Span(|m0|, |msg|), |m0|, d, i) && Fresh(names[n0..], bs, |m0|, d, i)
  }

  lemma WritingStart(m0: seq<byte>, on0: set<nat>, sp0: seq<Spelling>, names: seq<Known>, d: seq<byte>)
    requires IsName(d) && TableOk(m0, on0, names, sp0) && forall x :: x in on0 ==> 12 <= x < |m0|
    ensures Writing(m0, on0, sp0, |names|, m0, names, [], d, 0)
  {
    assert names[..|names|] == names && m0[..|m0|] == m0;
  }

  /** Lines 39-49: the tail of the name is remembered if there is room, and its first label is copied. */
  lemma WritingLabel(m0: seq<byte>, on0: set<nat>, sp0: seq<Spelling>, n0: nat, msg: seq<byte>, names: seq<Known>,
                     bs: seq<nat>,
                     d: seq<byte>, i: nat, add: bool)
    requires Writing(m0, on0, sp0, n0, msg, names, bs, d, i) && d[i] != 0 && (add ==> |msg| < 16384)
    ensures i + 1 + d[i] < |d|
    ensures var names' := if add then names + [Known(d[i..], |msg|)] else names;
            var bs' := if add then bs + [i] else bs;
            Writing(m0, on0, sp0, n0, msg + d[i..i + 1 + d[i]], names', bs', d, i + 1 + d[i])
  {
    hide IsName, Boundary, TableOk, Fresh;
    LabelCopied(on0, |m0|, msg, d, i);
    var msg' := msg + d[i..i + 1 + d[i]];
    assert msg'[..|m0|] == msg[..|m0|];
    WritingNames(names, n0, bs, |m0|, d, i, add, Known(d[i..], |msg|));
  }

  lemma LabelCopied(on0: set<nat>, start: nat, msg: seq<byte>, d: seq<byte>, i: nat)
    requires IsName(d) && start <= |msg| && Partial(msg, on0 + Span(start, |msg|), start, d, i) && d[i] != 0
    ensures i + 1 + d[i] < |d|
    ensures var msg' := msg + d[i..i + 1 + d[i]]; Partial(msg', on0 + Span(start, |msg'|), start, d, i + 1 + d[i])
  {
    hide IsName, Boundary;
    var on := on0 + Span(start, |msg|);
    var e: nat := |msg| + 1 + d[i];
    CopyLabel(msg, on, start, d, i, on + Span(|msg|, e));
    assert on + Span(|msg|, e) == on0 + Span(start, e);
  }

  lemma WritingNames(names: seq<Known>, n0: nat, bs: seq<nat>, start: nat, d: seq<byte>, i: nat, add: bool, k: Known)
    requires IsName(d) && n0 <= |names| && Fresh(names[n0..], bs, start, d, i) && i < |d| && Boundary(d, i)
    requires add ==> start + i < 16384 && k == Known(d[i..], start + i)
    ensures var names' := if add then names + [k] else names;
            var bs' := if add then bs + [i] else bs;
            names'[..n0] == names[..n0] && Fresh(names'[n0..], bs', start, d, i + 1 + d[i])
  {
    hide IsName, Boundary, Fresh;
    FreshNext(names[n0..], bs, start, d, i, i + 1 + d[i]);
    if add {
      assert (names + [k])[n0..] == names[n0..] + [k] && (names + [k])[..n0] == names[..n0];
    }
  }

  lemma FreshNext(names: seq<Known>, bs: seq<nat>, start: nat, d: seq<byte>, i: nat, n: nat)
    requires IsName(d) && Fresh(names, bs, start, d, i) && i < n && i < |d| && Boundary(d, i)
    ensures Fresh(names, bs, start, d, n)
    ensures start + i < 16384 ==> Fresh(names + [Known(d[i..], start + i)], bs + [i], start, d, n)
  {
    hide IsName, Boundary;
    forall t | 0 <= t < |bs| ensures FreshAt(names[t], bs[t], start, d,
                                             n) { assert FreshAt(names[t], bs[t], start, d, i); }
  }

  lemma MatchIsOld(m0: seq<byte>, on0: set<nat>, sp0: seq<Spelling>, n0: nat, msg: seq<byte>, names: seq<Known>,
                   bs: seq<nat>,
                   d: seq<byte>, i: nat, t: nat)
    requires Writing(m0, on0, sp0, n0, msg, names, bs, d, i) && t < |names| && Equal(d[i..], names[t].name)
    ensures t < n0
  {
    EqualLength(d[i..], names[t].name);
    forall u | n0 <= u < |names| ensures |names[u].name| > |d| - i {
      assert FreshAt(names[n0..][u - n0], bs[u - n0], |m0|, d, i);
    }
  }

  /** What a completed name leaves behind. */
  ghost predicate Completed(m0: seq<byte>, on0: set<nat>, msg: seq<byte>, names: seq<Known>, sp: seq<Spelling>,
                            d: seq<byte>, s: Spelling)
  {
    var on := on0 + Span(|m0|, |msg|);
    && |m0| < |msg| && msg[..|m0|] == m0
    && TableOk(msg, on, names, sp)
    && Written(msg, on, |m0|, d, s.spelled, s.jumps) && SkipName(msg, |m0|) == |msg|
  }

  lemma Complete(m0: seq<byte>, on0: set<nat>, sp0: seq<Spelling>, n0: nat, msg: seq<byte>, names: seq<Known>,
                 bs: seq<nat>,
                 d: seq<byte>, i: nat, more: seq<byte>, tail: seq<byte>, jumps: nat)
                   returns (sp: seq<Spelling>, s: Spelling)
    requires Writing(m0, on0, sp0, n0, msg, names, bs, d, i) && |more| > 0
    requires Ended(msg + more, on0 + Span(|m0|, |msg + more|), |m0|, d, i, tail, jumps)
    requires SkipName(msg + more, |m0| + i) == |msg + more|
    ensures Completed(m0, on0, msg + more, names, sp, d, s)
  {
    hide TableOk, Ended, Written, IsName, Fresh;
    var msg' := msg + more;
    var on := on0 + Span(|m0|, |msg'|);
    EndedWritten(msg', on, |m0|, d, i, tail, jumps);
    assert msg'[..|m0|] == msg[..|m0|] == m0;
    assert Keeps(m0, msg', on0) by { KeepsPrefix(m0, msg', on0); }
    EndedTable(m0, on0, msg', on, names, n0, sp0, bs, |m0|, d, i, tail, jumps);
    EndedBound(msg', on, |m0|, d, i, tail, jumps);
    sp := sp0 + FreshSpellings(bs, d, i, tail, jumps);
    s := Spelling(d[..i] + tail, jumps);
  }

  lemma KeepsPrefix(a: seq<byte>, b: seq<byte>, on: set<nat>)
    requires |a| <= |b| && b[..|a|] == a
    ensures Keeps(a, b, on)
  {
    forall i | i in on && 0 <= i < |a| ensures b[i] == a[i] { assert b[..|a|][i] == a[i]; }
  }

  lemma CompletePointer(m0: seq<byte>, on0: set<nat>, sp0: seq<Spelling>, n0: nat, msg: seq<byte>, names: seq<Known>,
                        bs: seq<nat>,
                        d: seq<byte>, i: nat, t: nat) returns (sp: seq<Spelling>, s: Spelling)
    requires Writing(m0, on0, sp0, n0, msg, names, bs, d, i) && t < |names| && Equal(d[i..], names[t].name)
    ensures t < n0 && names[t].ptr < 16384 && Completed(m0, on0, msg + PointerTo(names[t].ptr), names, sp, d, s)
  {
    hide Equal, IsName, Boundary, Fresh, SpellsOn;
    MatchIsOld(m0, on0, sp0, n0, msg, names, bs, d, i, t);
    var k := names[t];
    assert names[..n0][t] == k && KnownOk(m0, on0, k, sp0[t]);
    var on := on0 + Span(|m0|, |msg| + 2);
    KeepsPrefix(m0, msg, on0);
    SpellsOnKeeps(m0, msg, on0, on0, k.ptr, sp0[t].spelled, sp0[t].jumps);
    EndByPointer(msg, on0, |m0|, d, i, k, sp0[t], on);
    sp, s := Complete(m0, on0, sp0, n0, msg, names, bs, d, i, PointerTo(k.ptr), sp0[t].spelled, sp0[t].jumps + 1);
  }

  lemma CompleteZero(m0: seq<byte>, on0: set<nat>, sp0: seq<Spelling>, n0: nat, msg: seq<byte>, names: seq<Known>,
                     bs: seq<nat>,
                     d: seq<byte>, i: nat) returns (sp: seq<Spelling>, s: Spelling)
    requires Writing(m0, on0, sp0, n0, msg, names, bs, d, i) && d[i] == 0
    ensures Completed(m0, on0, msg + [0], names, sp, d, s)
  {
    hide IsName, Boundary, Fresh, TableOk;
    EndByZero(msg, |m0|, d, i, on0 + Span(|m0|, |msg| + 1));
    sp, s := Complete(m0, on0, sp0, n0, msg, names, bs, d, i, [0], [0], 0);
  }
}