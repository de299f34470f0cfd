/**
What the resolver takes from a packet: what the packet means, what of it is stored in the cache and when, which of its
records are copied into a reply, and which name servers it names.
*/
module Digest {
  import opened Bits
  import opened Bytes
  import opened Names
  import opened Packet
  import opened Message
  import opened RecordOrder
  import opened RecordSort
  import opened PacketScan
  import opened RecordData
  import opened Reply
  import opened Provenance
  import opened Wrappers
  import opened Zones

  // ----- storing the records of a packet

  /** Calls of `cache_set` were added, each at one of the readings `lo` to `hi` of the clock. */
  ghost predicate Timed(a: seq<Stored>, b: seq<Stored>, reading: nat -> nat, lo: nat, hi: nat)
  {
    lo <= hi && |a| <= |b| && b[..|a|] == a && forall k :: |a| <= k < |b| ==> TimedOne(b[k], reading, lo, hi)
  }

  ghost predicate TimedOne(s: Stored, reading: nat -> nat, lo: nat, hi: nat)
  {
    exists i :: lo <= i < hi && s.at == reading(i)
  }

  /** Those that are not markers are from packet number `h`. */
  ghost predicate More(a: seq<Stored>, b: seq<Stored>, h: nat, reading: nat -> nat, lo: nat, hi: nat)
  {
    Timed(a, b, reading, lo, hi) && forall k :: |a| <= k < |b| && b[k].Stored? ==> b[k].h == h
  }

  /** They are markers. */
  ghost predicate Marks(a: seq<Stored>, b: seq<Stored>, reading: nat -> nat, lo: nat, hi: nat)
  {
    Timed(a, b, reading, lo, hi) && forall k :: |a| <= k < |b| ==> b[k].Marked?
  }

  lemma NoMore(a: seq<Stored>, h: nat, reading: nat -> nat, n: nat)
    ensures More(a, a, h, reading, n, n)
  {
  }

  lemma NoMarks(a: seq<Stored>, reading: nat -> nat, n: nat)
    ensures Marks(a, a, reading, n, n)
  {
  }

  lemma NoMarksSince(a: seq<Stored>, reading: nat -> nat, lo: nat, hi: nat)
    requires lo <= hi
    ensures Marks(a, a, reading, lo, hi)
  {
  }

  /** A call of `doit`: the packet it brings, if any, was heard, and what was stored is from it, or are markers. */
  ghost predicate Logged(ms: seq<Heard>, heard: seq<Heard>, heard': seq<Heard>, a: seq<Stored>, b: seq<Stored>,
                         reading: nat -> nat, lo: nat, hi: nat)
  {
    heard' == heard + ms && if ms == [] then Marks(a, b, reading, lo, hi) else More(a, b, |heard'| - 1, reading, lo, hi)
  }

  lemma LoggedMarks(ms: seq<Heard>, heard: seq<Heard>, heard': seq<Heard>, a: seq<Stored>, b: seq<Stored>,
                    c: seq<Stored>, reading: nat -> nat, lo: nat, mid: nat, hi: nat)
    requires Logged(ms, heard, heard', a, b, reading, lo, mid) && Marks(b, c, reading, mid, hi)
    ensures Logged(ms, heard, heard', a, c, reading, lo, hi)
  {
    hide More, Marks;
    if ms == [] {
      MarksMarks(a, b, c, reading, lo, mid, hi);
    } else {
      MoreMarks(a, b, c, |heard'| - 1, reading, lo, mid, hi);
    }
  }

  lemma LoggedOnly(ms: seq<Heard>, heard: seq<Heard>, heard': seq<Heard>, a: seq<Stored>, b: seq<Stored>,
                   reading: nat -> nat, lo: nat, hi: nat)
    requires Logged(ms, heard, heard', a, b, reading, lo, hi)
    ensures heard <= heard' && a <= b
  {
  }

  lemma OneTimed(a: seq<Stored>, s: Stored, reading: nat -> nat, lo: nat, hi: nat)
    requires lo < hi && s.at == reading(lo)
    ensures Timed(a, a + [s], reading, lo, hi)
  {
    assert TimedOne(s, reading, lo, hi);
  }

  lemma {:induction false} TimedTimed(a: seq<Stored>, b: seq<Stored>, c: seq<Stored>, reading: nat -> nat, lo: nat,
                                      mid: nat, hi: nat)
    requires Timed(a, b, reading, lo, mid) && Timed(b, c, reading, mid, hi)
    ensures Timed(a, c, reading, lo, hi)
  {
    assert forall i :: 0 <= i < |b| ==> c[i] == c[..|b|][i] == b[i];
    assert forall i :: 0 <= i < |a| ==> b[i] == b[..|a|][i] == a[i];
    forall k | |a| <= k < |c| ensures TimedOne(c[k], reading, lo, hi) {
      if k < |b| { assert TimedOne(b[k], reading, lo, mid); } else { assert TimedOne(c[k], reading, mid, hi); }
    }
  }

  lemma MoreMore(a: seq<Stored>, b: seq<Stored>, c: seq<Stored>, h: nat, reading: nat -> nat, lo: nat, mid: nat,
                 hi: nat)
    requires More(a, b, h, reading, lo, mid) && More(b, c, h, reading, mid, hi)
    ensures More(a, c, h, reading, lo, hi)
  {
    hide TimedOne;
    TimedTimed(a, b, c, reading, lo, mid, hi);
    assert forall i :: 0 <= i < |b| ==> c[i] == c[..|b|][i] == b[i];
  }

  lemma MarksMarks(a: seq<Stored>, b: seq<Stored>, c: seq<Stored>, reading: nat -> nat, lo: nat, mid: nat, hi: nat)
    requires Marks(a, b, reading, lo, mid) && Marks(b, c, reading, mid, hi)
    ensures Marks(a, c, reading, lo, hi)
  {
    hide TimedOne;
    TimedTimed(a, b, c, reading, lo, mid, hi);
    assert forall i :: 0 <= i < |b| ==> c[i] == c[..|b|][i] == b[i];
  }

  lemma MoreMarks(a: seq<Stored>, b: seq<Stored>, c: seq<Stored>, h: nat, reading: nat -> nat, lo: nat, mid: nat,
                  hi: nat)
    requires More(a, b, h, reading, lo, mid) && Marks(b, c, reading, mid, hi)
    ensures More(a, c, h, reading, lo, hi)
  {
    hide Timed;
    MoreMore(a, b, c, h, reading, lo, mid, hi);
  }

  lemma MarksOnly(a: seq<Stored>, b: seq<Stored>, reading: nat -> nat, lo: nat, hi: nat)
    requires Marks(a, b, reading, lo, hi)
    ensures a <= b
  {
  }

  lemma MoreOnly(a: seq<Stored>, b: seq<Stored>, h: nat, reading: nat -> nat, lo: nat, hi: nat)
    requires More(a, b, h, reading, lo, hi)
    ensures a <= b
  {
  }

  lemma MarksEarlier(a: seq<Stored>, b: seq<Stored>, reading: nat -> nat, lo: nat, lo': nat, hi: nat)
    requires Marks(a, b, reading, lo, hi) && lo' <= lo
    ensures Marks(a, b, reading, lo', hi)
  {
    forall k | |a| <= k < |b| ensures TimedOne(b[k], reading, lo', hi) { assert TimedOne(b[k], reading, lo, hi); }
  }

  lemma OneMark(a: seq<Stored>, b: seq<Stored>, reading: nat -> nat, lo: nat, hi: nat)
    requires b == a || (lo < hi && |b| == |a| + 1 && b[..|a|] == a && b[|a|].Marked? && b[|a|].at == reading(lo))
    requires lo <= hi
    ensures Marks(a, b, reading, lo, hi)
  {
    if b != a { OneTimed(a, b[|a|], reading, lo, hi); assert b == a + [b[|a|]]; }
  }

  /** The records a set is stored from: of aliases, only the last. */
  ghost function From(ps: seq<nat>, typ: seq<byte>): seq<nat>
  {
    if typ == T_CNAME && ps != [] then [ps[|ps| - 1]] else ps
  }

  ghost function StoredItems(buf: seq<byte>, ps: seq<nat>, typ: seq<byte>, posauthority: nat): seq<seq<Item>>
  {
    SetItems(buf, From(ps, typ), typ, posauthority)
  }

  /** The lifetime, unless a set with the flag is cached with a shorter one. */
  function Shorter(hit: Option<Found>, ttl: u32): (t: u32)
    ensures t <= ttl
  {
    if hit.Some? && hit.value.flag != 0 && hit.value.ttl < ttl then hit.value.ttl else ttl
  }

  /**
  Lines 922-923 and the conditions of the types: a set is stored unless its owner is out of the zone or it is
  too large.
  */
  ghost predicate SetKept(g: Settings, m: Heard, ps: seq<nat>, owner: seq<byte>, typ: seq<byte>, posauthority: nat)
  {
    && IsName(owner) && Suffix(owner, m.zone) && g.same(owner, m.zone) && typ != T_ANY && typ != T_AXFR
    && (typ == T_SOA ==> exists i :: 0 <= i < |ps| && ps[i] < posauthority)
    && (typ != T_CNAME ==> |SetBytes(m.buf, ps, typ, posauthority)| <= 8192)
  }

  /**
  The entry for a set: the data of all its records that are stored, each of which can be read. Only for NS records may
  the lifetime be shorter than that of the first record.
  */
  ghost predicate FiledAs(s: Stored, m: Heard, h: nat, ps: seq<nat>, owner: seq<byte>, typ: seq<byte>,
                          posauthority: nat, ns: bool, ttl: u32)
  {
    && s.Stored? && s.h == h && s.typ == typ && s.owner == owner
    && s.items == StoredItems(m.buf, ps, typ, posauthority)
    && s.data == SetBytes(m.buf, From(ps, typ), typ, posauthority)
    && AllRead(m.buf, From(ps, typ), typ, posauthority)
    && s.ttl <= ttl && (typ != T_NS ==> s.ttl == ttl)
    && s.flag == if typ == T_NS then Equal(owner, m.zone) else (typ == T_A || typ == T_AAAA) && ns
  }

  /** The entry added, if any, has the lifetime. */
  ghost predicate Lives(a: seq<Stored>, b: seq<Stored>, ttl: u32)
  {
    |b| > |a| ==> b[|a|].ttl == ttl
  }

  /** One set is stored, or not. */
  ghost predicate Filed(g: Settings, m: Heard, h: nat, ps: seq<nat>, owner: seq<byte>, typ: seq<byte>,
                        posauthority: nat, ns: bool, ttl: u32,
                        a: seq<Stored>, b: seq<Stored>)
  {
    if SetKept(g, m, ps, owner, typ, posauthority) then
      |b| == |a| + 1 && b[..|a|] == a && FiledAs(b[|a|], m, h, ps, owner, typ, posauthority, ns, ttl)
    else b == a
  }

  ghost predicate FiledAt(g: Settings, m: Heard, h: nat, r: seq<nat>, i: nat, j: nat, posauthority: nat, ns: bool,
                          minttl: u32, a: seq<Stored>, b: seq<Stored>)
  {
    && minttl <= 300 && i < j <= |r| && DataAt(m.buf, r[i]) <= |m.buf|
    && Filed(g, m, h, r[i..j], NameAt(m.buf, r[i]), TypeAt(m.buf, r[i]), posauthority, ns, TtlAt(m.buf, r[i], minttl),
             a, b)
  }

  /** The sets are stored one after another. */
  ghost predicate AllFiled(g: Settings, m: Heard, h: nat, r: seq<nat>, sets: seq<(nat, nat)>, posauthority: nat,
                           ns: bool, minttl: u32,
                           a: seq<Stored>, b: seq<Stored>)
    decreases |sets|
  {
    if sets == [] then a == b
    else
      var n := |sets| - 1;
      exists c :: AllFiled(g, m, h, r, sets[..n], posauthority, ns, minttl, a, c)
                  && FiledAt(g, m, h, r, sets[n].0, sets[n].1, posauthority, ns, minttl, c, b)
  }

  lemma FiledNone(g: Settings, m: Heard, h: nat, r: seq<nat>, posauthority: nat, ns: bool, minttl: u32, a: seq<Stored>)
    ensures AllFiled(g, m, h, r, [], posauthority, ns, minttl, a, a)
  {
  }

  lemma FiledNext(g: Settings, m: Heard, h: nat, r: seq<nat>, sets: seq<(nat, nat)>, i: nat, j: nat, t1: seq<byte>,
                  header: seq<byte>,
                  posauthority: nat, ns: bool, minttl: u32, a: seq<Stored>, b: seq<Stored>, c: seq<Stored>)
    requires AllFiled(g, m, h, r, sets, posauthority, ns, minttl, a, b) && minttl <= 300 && i < j <= |r|
             && |header| == 10
    requires t1 == NameAt(m.buf, r[i]) && ViewAt(m.buf, r[i]).head == header[..4]
    requires SkipName(m.buf, r[i]) + 10 <= |m.buf| && header == m.buf[SkipName(m.buf, r[i])..SkipName(m.buf, r[i]) + 10]
    requires Filed(g, m, h, r[i..j], t1, header[..2], posauthority, ns, TtlGet(header[4..8], minttl), b, c)
    ensures AllFiled(g, m, h, r, sets + [(i, j)], posauthority, ns, minttl, a, c)
  {
    hide Filed, NameAt, SkipName, TtlGet, ViewAt;
    var t := sets + [(i, j)];
    assert t[..|sets|] == sets && t[|sets|] == (i, j);
    assert header[..4][..2] == header[..2];
    HeaderTtl(m.buf, r[i], header);
    assert FiledAt(g, m, h, r, i, j, posauthority, ns, minttl, b, c);
  }

  lemma HeaderTtl(buf: seq<byte>, p: nat, header: seq<byte>)
    requires DataAt(buf, p) <= |buf| && header == buf[DataAt(buf, p) - 10..DataAt(buf, p)]
    ensures header[4..8] == buf[DataAt(buf, p) - 6..DataAt(buf, p) - 2]
  {
    var q := DataAt(buf, p);
    SliceSlice(buf, q - 10, q, 4, 8);
  }

  lemma FiledMore(g: Settings, m: Heard, h: nat, ps: seq<nat>, t1: seq<byte>, header: seq<byte>, posauthority: nat,
                  ns: bool, minttl: u32, a: seq<Stored>, b: seq<Stored>, c: seq<Stored>, ok: bool,
                  reading: nat -> nat, lo: nat, mid: nat, hi: nat)
    requires More(a, b, h, reading, lo, mid) && Timed(b, c, reading, mid, hi) && |header| == 10 && minttl <= 300
    requires if ok then Filed(g, m, h, ps, t1, header[..2], posauthority, ns, TtlGet(header[4..8], minttl), b, c)
             else c == b
    ensures More(a, c, h, reading, lo, hi)
  {
    hide SetKept, StoredItems, Timed, EncodeAll, AllRead;
    if c != b {
      assert FiledAs(c[|b|], m, h, ps, t1, header[..2], posauthority, ns, TtlGet(header[4..8], minttl));
    }
    assert More(b, c, h, reading, mid, hi);
    MoreMore(a, b, c, h, reading, lo, mid, hi);
  }

  /** All sets of a packet, in the order of some sorted list of its records. */
  ghost predicate StoredAs(g: Settings, m: Heard, h: nat, posauthority: nat, ns: bool, minttl: u32, a: seq<Stored>,
                           b: seq<Stored>, ps: seq<nat>, end: nat, r: seq<nat>, sets: seq<(nat, nat)>)
  {
    && |m.buf| >= 12 && Walk(m.buf, AnswersAt(m.buf), ps, end) && |ps| == RecordCount(m.buf)
    && multiset(r) == multiset(ps) && Taken(m.buf, r, sets, |r|)
    && AllFiled(g, m, h, r, sets, posauthority, ns, minttl, a, b)
  }

  ghost predicate StoredAll(g: Settings, m: Heard, h: nat, posauthority: nat, ns: bool, minttl: u32, a: seq<Stored>,
                            b: seq<Stored>)
  {
    exists ps, end, r, sets :: StoredAs(g, m, h, posauthority, ns, minttl, a, b, ps, end, r, sets)
  }

  /** The type under which it is stored that there is nothing, lines 1067-1084. */
  function Negative(rd: Reading, dtype: seq<byte>): Option<seq<byte>>
  {
    if rd.ans.alias then None
    else if rd.rcode == 3 then Some(T_ANY)
    else if !rd.ans.out && rd.auth.soa && dtype != T_ANY && dtype != T_AXFR && dtype != T_CNAME then Some(dtype)
    else None
  }

  function Nothing(h: nat, rd: Reading, d: seq<byte>, dtype: seq<byte>, at: nat): seq<Stored>
  {
    var none := Negative(rd, dtype);
    if none.Some? && |d| <= 255 then [Stored(h, none.value, d, [], rd.auth.soattl, false, [], at)] else []
  }

  lemma NothingHere(h: nat, rd: Reading, d: seq<byte>, dtype: seq<byte>, at: nat, stored: seq<Stored>)
    requires rd.ans.alias
    ensures stored + Nothing(h, rd, d, dtype, at) == stored
  {
  }

  /** What a packet adds to the cache: all its sets, and that there is nothing, if it says so. */
  ghost predicate Digested(g: Settings, m: Heard, h: nat, rd: Reading, d: seq<byte>, dtype: seq<byte>, minttl: u32,
                           a: seq<Stored>, b: seq<Stored>)
  {
    exists mid, at :: StoredAll(g, m, h, rd.posauthority, rd.auth.ns, minttl, a, mid)
                      && b == mid + Nothing(h, rd, d, dtype, at)
  }

  lemma DigestedNow(g: Settings, m: Heard, h: nat, rd: Reading, d: seq<byte>, dtype: seq<byte>, minttl: u32,
                    a: seq<Stored>, mid: seq<Stored>, b: seq<Stored>, at: nat)
    requires StoredAll(g, m, h, rd.posauthority, rd.auth.ns, minttl, a, mid)
    requires b == mid + Nothing(h, rd, d, dtype, at)
    ensures Digested(g, m, h, rd, d, dtype, minttl, a, b)
  {
    hide StoredAll, Nothing;
  }

  /** The records of a set are about one name. */
  lemma SetRecords(m: Heard, ps: seq<nat>, end: nat, r: seq<nat>, i: nat, j: nat, t1: seq<byte>, header: seq<byte>)
    requires Walk(m.buf, AnswersAt(m.buf), ps, end) && multiset(r) == multiset(ps) && AllReadable(m.buf, r)
             && |m.buf| >= 12 && |ps| <= RecordCount(m.buf)
    requires IsSet(m.buf, r, i, j) && Internet(m.buf, r[i]) && t1 == NameAt(m.buf, r[i]) && |header| == 10
             && ViewAt(m.buf, r[i]).head == header[..4]
    ensures i < j <= |r| && forall x :: 0 <= x < |r[i..j]| ==> RecordOf(m, r[i..j][x], t1, header[..2])
  {
    hide Walk, ViewAt, NameAt, Readable, IsName, AnswersAt;
    forall x | 0 <= x < |r[i..j]| ensures RecordOf(m, r[i..j][x], t1, header[..2]) {
      var p := r[i + x];
      assert p in multiset(r) && p in multiset(ps);
      assert Readable(m.buf, At(r, i + x + 1));
      WalkNamed(m.buf, p);
      assert SameSet(m.buf, r[i], p);
      assert header[..4][..2] == header[..2];
      SetOwned(m.buf, r[i], p, t1);
      assert IsRecord(m.buf, p);
    }
  }

  lemma SetOwned(buf: seq<byte>, a: nat, p: nat, t1: seq<byte>)
    requires SameSet(buf, a, p) && Internet(buf, a) && t1 == NameAt(buf, a)
    ensures Owned(buf, p, t1) && TypeAt(buf, p) == TypeAt(buf, a)
  {
  }

  lemma SetStored(heard: seq<Heard>, ps: seq<nat>, owner: seq<byte>, typ: seq<byte>, data: seq<byte>, ttl: u32,
                  flag: bool, posauthority: nat)
    requires heard != [] && |typ| == 2 && typ != T_AXFR && typ != T_CNAME && ttl <= 604800 && IsName(owner)
             && |owner| <= 255
    requires var m := heard[|heard| - 1];
             && Suffix(owner, m.zone) && (forall i :: 0 <= i < |ps| ==> RecordOf(m, ps[i], owner, typ))
             && data == SetBytes(m.buf, ps, typ, posauthority)
    ensures var m := heard[|heard| - 1];
            StoredOk(heard, Stored(|heard| - 1, typ, owner, data, ttl, flag, StoredItems(m.buf, ps, typ, posauthority),
                                   0))
  {
    hide IsName, Suffix, RecordOf, ToldBy, SetItems, EncodeAll, AllFit, LayoutOf;
    var m := heard[|heard| - 1];
    SetFits(m.buf, ps, typ, posauthority);
    SetTold(m, ps, owner, typ, posauthority);
  }

  lemma AliasStored(heard: seq<Heard>, ps: seq<nat>, owner: seq<byte>, target: seq<byte>, ttl: u32, posauthority: nat)
    requires heard != [] && ttl <= 604800 && IsName(owner) && |owner| <= 255 && ps != []
    requires var m := heard[|heard| - 1];
             && Suffix(owner, m.zone) && (forall i :: 0 <= i < |ps| ==> RecordOf(m, ps[i], owner, T_CNAME))
             && target == NameAt(m.buf, DataAt(m.buf, ps[|ps| - 1])) && target != []
    ensures var m := heard[|heard| - 1];
            StoredOk(heard, Stored(|heard| - 1, T_CNAME, owner, target, ttl, false,
                                   StoredItems(m.buf, ps, T_CNAME, posauthority), 0))
            && target == SetBytes(m.buf, From(ps, T_CNAME), T_CNAME, posauthority)
            && AllRead(m.buf, From(ps, T_CNAME), T_CNAME, posauthority)
  {
    hide IsName, Suffix, RecordOf, ToldBy, SetItems, EncodeAll, AllFit, LayoutOf, NameAt, DataAt;
    var m, p := heard[|heard| - 1], ps[|ps| - 1];
    SetFits(m.buf, [p], T_CNAME, posauthority);
    SetTold(m, [p], owner, T_CNAME, posauthority);
    AliasItems(m.buf, p, posauthority);
  }

  lemma AliasItems(buf: seq<byte>, p: nat, posauthority: nat)
    requires NameAt(buf, DataAt(buf, p)) != []
    ensures var list := SetItems(buf, [p], T_CNAME, posauthority);
            |list| == 1 && AllFit(LayoutOf(T_CNAME), list)
              && EncodeAll(LayoutOf(T_CNAME), list) == NameAt(buf, DataAt(buf, p))
  {
    hide NameAt, SkipName;
    SetFits(buf, [p], T_CNAME, posauthority);
    var t := [p];
    assert t[..0] == [];
    var list := SetItems(buf, t, T_CNAME, posauthority);
    assert list == [[Domain(NameAt(buf, DataAt(buf, p)))]];
    OneItem(list);
  }

  /** The set is in the zone, has the configured servers of the zone, and is of a type that is stored. */
  ghost predicate InScope(g: Settings, m: Heard, owner: seq<byte>, typ: seq<byte>)
  {
    IsName(owner) && IsName(m.zone) && Suffix(owner, m.zone) && g.same(owner, m.zone) && typ != T_ANY && typ != T_AXFR
  }

  /** All that is read of the records of a set can be read. */
  ghost predicate SetReads(buf: seq<byte>, ps: seq<nat>, typ: seq<byte>, posauthority: nat)
  {
    forall i :: 0 <= i < |From(ps, typ)| ==> PieceReads(buf, From(ps, typ)[i], typ, posauthority)
  }

  lemma RecordHead(m: Heard, p: nat, owner: seq<byte>, typ: seq<byte>)
    requires RecordOf(m, p, owner, typ)
    ensures HeadReads(m.buf, p)
  {
    hide ViewAt, NameAt, IsName;
    var ps, end :| Walk(m.buf, AnswersAt(m.buf), ps, end) && p in ps;
    var i :| 0 <= i < |ps| && ps[i] == p;
    WalkForward(m.buf, AnswersAt(m.buf), ps, end, i);
    SkipForward(m.buf, p);
  }

  lemma RecordHeads(m: Heard, ps: seq<nat>, owner: seq<byte>, typ: seq<byte>)
    requires forall i :: 0 <= i < |ps| ==> RecordOf(m, ps[i], owner, typ)
    ensures forall i :: 0 <= i < |ps| ==> HeadReads(m.buf, ps[i])
  {
    hide RecordOf, HeadReads;
    forall i | 0 <= i < |ps| ensures HeadReads(m.buf, ps[i]) { RecordHead(m, ps[i], owner, typ); }
  }

  lemma OneReads(buf: seq<byte>, ps: seq<nat>, posauthority: nat)
    requires ps != []
    ensures SetReads(buf, ps, T_CNAME, posauthority) <==> NameAt(buf, DataAt(buf, ps[|ps| - 1])) != []
  {
    hide NameAt, SkipName;
    assert From(ps, T_CNAME)[0] == ps[|ps| - 1];
  }

  lemma EachReads(buf: seq<byte>, ps: seq<nat>, typ: seq<byte>, posauthority: nat)
    requires typ != T_CNAME
    ensures SetReads(buf, ps, typ, posauthority)
            <==> forall i :: 0 <= i < |ps| ==> PieceReads(buf, ps[i], typ, posauthority)
  {
    hide PieceReads;
    var t := From(ps, typ);
    assert t == ps;
    assert SetReads(buf, ps, typ, posauthority)
           <==> forall i :: 0 <= i < |t| ==> PieceReads(buf, t[i], typ, posauthority);
  }

  /** Lines 950-951: the name in the data of the last record of the set. */
  method AliasTarget(buf: seq<byte>, p: nat) returns (ok: bool, t: seq<byte>)
    requires HeadReads(buf, p)
    ensures ok <==> NameAt(buf, DataAt(buf, p)) != []
    ensures ok ==> IsName(t) && |t| <= 255 && NameAt(buf, DataAt(buf, p)) == t && t != []
  {
    hide NameAt, SkipName;
    var pos := Skip(buf, p);
    if pos == 0 { return false, []; }
    pos, t := NameHere(buf, pos + 10);
    ok := pos != 0;
  }

  lemma SectionCounts(buf: seq<byte>, rd: Reading, pa: seq<nat>, pb: seq<nat>, end: nat)
    requires Sections(buf, rd, pa, pb, end)
    ensures |buf| >= 12 && rd.answers + rd.authorities + rd.glue == RecordCount(buf)
  {
    hide Walk, SkipName;
  }

  /** What the first two scans of a packet find. */
  datatype Reading = Reading(rcode: nat, posanswers: nat, answers: nat, posauthority: nat, authorities: nat, glue: nat,
                             ans: Answers, auth: Authority)

  ghost predicate ReadingOk(rd: Reading)
  {
    && rd.rcode in {0, 3} && (rd.ans.alias ==> IsName(rd.ans.cname)) && rd.auth.soattl <= 3600
    && (rd.auth.referral ==> IsName(rd.auth.zone))
  }

  /** Line 861: the packet can only be a referral. */
  predicate Refers(rd: Reading) { !rd.ans.alias && rd.rcode == 0 && !rd.ans.out && rd.auth.referral && !rd.auth.soa }

  /** The packet refers to a zone that is not strictly inside that of the servers asked. */
  ghost predicate Lame(rd: Reading, zone: seq<byte>)
    requires ReadingOk(rd)
  {
    Refers(rd) && (Equal(rd.auth.zone, zone) || !Suffix(rd.auth.zone, zone))
  }

  /** The records of the first two sections. */
  ghost predicate Sections(buf: seq<byte>, rd: Reading, pa: seq<nat>, pb: seq<nat>, end: nat)
  {
    && |buf| >= 12 && rd.posanswers == AnswersAt(buf) && rd.answers == Be16(buf, 6) && rd.authorities == Be16(buf, 8)
    && rd.glue == Be16(buf, 10)
    && Walk(buf, rd.posanswers, pa, rd.posauthority) && |pa| == rd.answers
    && Walk(buf, rd.posauthority, pb, end) && |pb| == rd.authorities
  }

  /** Lines 798-857. */
  method ReadPacket(buf: seq<byte>, d: seq<byte>, dtype: seq<byte>, minttl: u32)
    returns (ok: bool, rd: Reading, ghost pa: seq<nat>, ghost pb: seq<nat>, ghost end: nat)
    requires |dtype| == 2 && minttl <= 300
    ensures ok ==> ReadingOk(rd) && Sections(buf, rd, pa, pb, end) && AnswersOk(buf, pa, d, dtype, rd.ans)
                   && AuthorityOk(buf, pb, d, rd.auth)
  {
    hide IsName, Walk, SkipName;
    rd := Reading(0, 0, 0, 0, 0, 0, Answers(false, false, [], 0, false), Authority(false, 0, false, [], false));
    pa, pb, end := [], [], 0;
    var pos, header := Copy(buf, 0, 12);
    if pos == 0 { return false, rd, pa, pb, end; }
    pos := Skip(buf, pos);
    if pos == 0 { return false, rd, pa, pb, end; }
    pos := pos + 4;
    var rcode: nat := header[3] % 16;
    if rcode != 0 && rcode != 3 { return false, rd, pa, pb, end; }
    var na, nb, ng := Be16(header, 6), Be16(header, 8), Be16(header, 10);
    var ans, posauthority, auth, last;
    ok, ans, posauthority, pa := ScanAnswers(buf, pos, na, d, dtype, minttl);
    if !ok { return; }
    ok, auth, last, pb := ScanAuthority(buf, posauthority, nb, d, minttl, ans.ns);
    if !ok { return; }
    end := last;
    rd := Reading(rcode, pos, na, posauthority, nb, ng, ans, auth);
  }

  lemma AliasHeard(heard: seq<Heard>, rd: Reading, pa: seq<nat>, pb: seq<nat>, end: nat, d: seq<byte>, dtype: seq<byte>)
    requires heard != [] && Sections(heard[|heard| - 1].buf, rd, pa, pb, end) && rd.ans.alias && IsName(d)
             && Suffix(d, heard[|heard| - 1].zone)
    requires AnswersOk(heard[|heard| - 1].buf, pa, d, dtype, rd.ans)
    ensures Told(heard, d, T_CNAME, [Domain(rd.ans.cname)])
  {
    hide IsName, Suffix, Walk, AnswersOk, ToldBy;
    AliasTold(heard[|heard| - 1], pa, rd.posauthority, d, dtype, rd.ans);
    ToldNow(heard, |heard| - 1, d, T_CNAME, [Domain(rd.ans.cname)]);
  }

  lemma NothingStored(heard: seq<Heard>, typ: seq<byte>, d: seq<byte>, ttl: u32)
    requires heard != [] && IsName(d) && Suffix(d, heard[|heard| - 1].zone) && |typ| == 2 && typ != T_AXFR
             && typ != T_CNAME && ttl <= 604800
    ensures |d| <= 255 ==> StoredOk(heard, Stored(|heard| - 1, typ, d, [], ttl, false, [], 0))
  {
    hide IsName, Suffix, LayoutOf;
  }

  // ----- the reply to a packet

  ghost predicate AllWalked(buf: seq<byte>, ps: seq<nat>)
  {
    forall i :: 0 <= i < |ps| ==> DataAt(buf, ps[i]) <= |buf|
  }

  lemma WalkedAll(buf: seq<byte>, start: nat, ps: seq<nat>, end: nat)
    requires Walk(buf, start, ps, end)
    ensures AllWalked(buf, ps)
  {
    hide Walk, SkipName, NameAt;
    forall i | 0 <= i < |ps| ensures DataAt(buf, ps[i]) <= |buf| { WalkForward(buf, start, ps, end, i); }
  }

  lemma WalkEnds(buf: seq<byte>, start: nat, ps: seq<nat>, end: nat)
    requires Walk(buf, start, ps, end)
    ensures if ps == [] then start == end else start == ps[0]
  {
    if ps != [] { WalkNext(buf, start, ps, end, 0); }
  }

  /** The record of the reply made from the record at `p`, if that is about the name and the type. */
  ghost function CopiedOne(buf: seq<byte>, p: nat, d: seq<byte>, dtype: seq<byte>, section: nat, minttl: u32,
                           hideTtl: bool): seq<Said>
    requires minttl <= 300 && DataAt(buf, p) <= |buf|
  {
    if IsAnswer(buf, p, d, dtype) && DataOf(buf, p, TypeAt(buf, p)).Some? then
      [Said(NameAt(buf, p), TypeAt(buf, p), if hideTtl then 0 else TtlAt(buf, p, minttl), section,
                                                                   DataOf(buf, p, TypeAt(buf, p)).value)]
    else []
  }

  /** The records of a packet about the name, in order, with their types, lifetimes and data. */
  ghost function Copied(buf: seq<byte>, ps: seq<nat>, d: seq<byte>, dtype: seq<byte>, section: nat, minttl: u32,
                        hideTtl: bool): seq<Said>
    requires minttl <= 300 && AllWalked(buf, ps)
  {
    if ps == [] then []
    else
      var n := |ps| - 1;
      Copied(buf, ps[..n], d, dtype, section, minttl, hideTtl) + CopiedOne(buf, ps[n], d, dtype, section, minttl,
                                                                           hideTtl)
  }

  lemma CopiedNone(buf: seq<byte>, d: seq<byte>, dtype: seq<byte>, section: nat, minttl: u32, hideTtl: bool)
    requires minttl <= 300
    ensures AllWalked(buf, []) && Copied(buf, [], d, dtype, section, minttl, hideTtl) == []
  {
  }

  lemma CopiedNext(buf: seq<byte>, ps: seq<nat>, j: nat, d: seq<byte>, dtype: seq<byte>, section: nat, minttl: u32,
                   hideTtl: bool)
    requires minttl <= 300 && AllWalked(buf, ps) && j < |ps|
    ensures AllWalked(buf, ps[..j]) && AllWalked(buf, ps[..j + 1]) && DataAt(buf, ps[j]) <= |buf|
    ensures Copied(buf, ps[..j + 1], d, dtype, section, minttl, hideTtl)
            == Copied(buf, ps[..j], d, dtype, section, minttl, hideTtl)
               + CopiedOne(buf, ps[j], d, dtype, section, minttl, hideTtl)
  {
    hide CopiedOne;
    var t := ps[..j + 1];
    assert t[..j] == ps[..j] && t[j] == ps[j];
  }

  /** A record about the name and of the type can be copied: its data can be read. */
  ghost predicate CanCopy(buf: seq<byte>, p: nat, d: seq<byte>, dtype: seq<byte>)
  {
    IsAnswer(buf, p, d, dtype) ==> DataOf(buf, p, TypeAt(buf, p)).Some?
  }

  ghost predicate AllCopied(buf: seq<byte>, ps: seq<nat>, d: seq<byte>, dtype: seq<byte>)
  {
    forall i :: 0 <= i < |ps| ==> CanCopy(buf, ps[i], d, dtype)
  }

  lemma NoneCopied(buf: seq<byte>, d: seq<byte>, dtype: seq<byte>)
    ensures AllCopied(buf, [], d, dtype)
  {
  }

  lemma AllCopiedNext(buf: seq<byte>, ps: seq<nat>, j: nat, d: seq<byte>, dtype: seq<byte>)
    requires j < |ps| && AllCopied(buf, ps[..j], d, dtype) && CanCopy(buf, ps[j], d, dtype)
    ensures AllCopied(buf, ps[..j + 1], d, dtype)
  {
    hide CanCopy;
    forall i | 0 <= i < j ensures CanCopy(buf, ps[i], d, dtype) { assert ps[..j][i] == ps[i]; }
  }

  lemma HeaderLength(buf: seq<byte>, p: nat, header: seq<byte>)
    requires DataAt(buf, p) <= |buf| && header == buf[DataAt(buf, p) - 10..DataAt(buf, p)]
    ensures Be16(header, 8) == LengthAt(buf, p)
  {
  }

  lemma CopyGenuine(g: Settings, heard: seq<Heard>, m: Heard, p: nat, t1: seq<byte>, d: seq<byte>, typ: seq<byte>,
                    items: seq<Item>)
    requires heard != [] && heard[|heard| - 1] == m && IsRecord(m.buf, p) && Owned(m.buf, p, d)
             && TypeAt(m.buf, p) == typ
    requires t1 == NameAt(m.buf, p) && IsName(t1) && DataOf(m.buf, p, typ) == Some(items) && IsName(d)
             && Suffix(d, m.zone)
    ensures Genuine(g, heard, t1, typ, items)
  {
    hide IsRecord, IsName, Suffix, NameAt, DataOf, TypeAt, ToldBy;
    RecordSays(m, p, d, typ, items);
    SaysEqual(m, d, t1, typ, items);
    ToldNow(heard, |heard| - 1, t1, typ, items);
  }

  /** The reply to a packet: the answers about the name, then its name servers. */
  ghost predicate PacketReply(buf: seq<byte>, d: seq<byte>, dtype: seq<byte>, minttl: u32, hideTtl: bool,
                              said: seq<Said>)
  {
    exists pa, mid, pb, end ::
      && |buf| >= 12 && minttl <= 300 && AllWalked(buf, pa) && AllWalked(buf, pb)
      && Walk(buf, AnswersAt(buf), pa, mid) && |pa| == Be16(buf, 6) && Walk(buf, mid, pb, end) && |pb| == Be16(buf, 8)
      && AllCopied(buf, pa, d, dtype) && AllCopied(buf, pb, d, T_NS)
      && said == Copied(buf, pa, d, dtype, ANSWER, minttl, hideTtl)
                 + Copied(buf, pb, d, T_NS, AUTHORITY, minttl, hideTtl)
  }

  lemma PacketReplyIs(buf: seq<byte>, rd: Reading, pa: seq<nat>, pb: seq<nat>, end: nat, d: seq<byte>,
                      dtype: seq<byte>, minttl: u32, hideTtl: bool, said: seq<Said>)
    requires Sections(buf, rd, pa, pb, end) && minttl <= 300 && AllWalked(buf, pa) && AllWalked(buf, pb)
    requires AllCopied(buf, pa, d, dtype) && AllCopied(buf, pb, d, T_NS)
    requires said == Copied(buf, pa, d, dtype, ANSWER, minttl, hideTtl)
                     + Copied(buf, pb, d, T_NS, AUTHORITY, minttl, hideTtl)
    ensures PacketReply(buf, d, dtype, minttl, hideTtl, said)
  {
    hide Walk, Copied, AllCopied, AllWalked;
  }

  lemma SectionRecords(buf: seq<byte>, rd: Reading, pa: seq<nat>, pb: seq<nat>, end: nat)
    requires Sections(buf, rd, pa, pb, end)
    ensures forall i :: 0 <= i < |pa| ==> IsRecord(buf, pa[i])
    ensures forall i :: 0 <= i < |pb| ==> IsRecord(buf, pb[i])
    ensures Walk(buf, rd.posanswers, pa, rd.posauthority) && |pa| == rd.answers
    ensures Walk(buf, rd.posauthority, pb, end) && |pb| == rd.authorities
  {
    hide Walk;
    WalkConcat(buf, rd.posanswers, pa, rd.posauthority, pb, end);
    forall i | 0 <= i < |pb| ensures IsRecord(buf, pb[i]) { assert (pa + pb)[|pa| + i] == pb[i]; }
  }

  // ----- the names of servers

  /** The name in an NS record of the zone. */
  ghost function NsIn(buf: seq<byte>, p: nat, zone: seq<byte>): seq<seq<byte>>
  {
    if Owned(buf, p, zone) && TypeAt(buf, p) == T_NS then [NameAt(buf, DataAt(buf, p))] else []
  }

  ghost function NsNames(buf: seq<byte>, ps: seq<nat>, zone: seq<byte>): seq<seq<byte>>
  {
    if ps == [] then [] else NsNames(buf, ps[..|ps| - 1], zone) + NsIn(buf, ps[|ps| - 1], zone)
  }

  lemma NsNamesNext(buf: seq<byte>, ps: seq<nat>, j: nat, zone: seq<byte>)
    requires j < |ps|
    ensures NsNames(buf, ps[..j + 1], zone) == NsNames(buf, ps[..j], zone) + NsIn(buf, ps[j], zone)
  {
    hide NsIn;
    var t := ps[..j + 1];
    assert t[..j] == ps[..j] && t[j] == ps[j];
  }

  lemma NsRecordTold(heard: seq<Heard>, m: Heard, p: nat, zone: seq<byte>, t: seq<byte>)
    requires heard != [] && heard[|heard| - 1] == m && IsName(zone) && Suffix(zone, m.zone)
    requires IsRecord(m.buf, p) && Readable(m.buf, p) && Owned(m.buf, p, zone) && TypeAt(m.buf, p) == T_NS
    requires t == NameAt(m.buf, DataAt(m.buf, p)) && IsName(t) && t != []
    ensures NsName(heard, zone, t)
  {
    hide IsName, Suffix, IsRecord, NameAt, SkipName, ToldBy, Told;
    WalkNamed(m.buf, p);
    RecordSays(m, p, zone, T_NS, [Domain(t)]);
    ToldNow(heard, |heard| - 1, zone, T_NS, [Domain(t)]);
  }

  /** Lines 1206-1219: the first sixteen name servers of the referral. */
  method NsFromPacket(m: Heard, start: nat, n: nat, zone: seq<byte>, ghost heard: seq<Heard>, ghost ps: seq<nat>,
                      ghost end: nat)
    returns (ok: bool, list: seq<Option<seq<byte>>>)
    requires heard != [] && heard[|heard| - 1] == m && IsName(zone) && Suffix(zone, m.zone)
    requires Walk(m.buf, start, ps, end) && |ps| == n && forall i :: 0 <= i < n ==> IsRecord(m.buf, ps[i])
    ensures ok ==> NsList(heard, zone, list) && list == Listed(NsNames(m.buf, ps, zone))
  {
    hide NameAt, IsName, SkipName, ViewAt, NsName, Suffix, Walk, IsRecord, NsNames, Listed;
    list := NONE;
    ListedNone();
    NoNames(m.buf, zone);
    assert ps[..0] == [];
    WalkEnds(m.buf, start, ps, end);
    var pos, j, k: nat := start, 0, 0;
    while j < n
      invariant NsList(heard, zone, list) && j <= n && pos == (if j < n then ps[j] else end)
      invariant list == Listed(NsNames(m.buf, ps[..j], zone))
      invariant k == (if |NsNames(m.buf, ps[..j], zone)| < 16 then |NsNames(m.buf, ps[..j], zone)| else 16)
    {
      WalkNext(m.buf, start, ps, end, j);
      NsNamesNext(m.buf, ps, j, zone);
      ghost var names := NsNames(m.buf, ps[..j], zone);
      var t1, header, data, next;
      ok, t1, header, data, next := Record(m.buf, pos);
      if !ok { return; }
      if Equal(zone, t1) && header[..2] == T_NS && header[2..4] == C_IN {
        ListedNext(names, NameAt(m.buf, data));
        if k < 16 {
          var r, t := NameHere(m.buf, data);
          if r == 0 { return false, list; }
          NsRecordTold(heard, m, pos, zone, t);
          list := list[k := Some(t)];
          k := k + 1;
        }
      } else {
        assert names + [] == names;
      }
      pos := next;
      j := j + 1;
    }
    assert ps[..j] == ps;
    ok := true;
  }

  lemma NoNames(buf: seq<byte>, zone: seq<byte>)
    ensures NsNames(buf, [], zone) == []
  {
  }

  lemma CachedName(heard: seq<Heard>, d: seq<byte>, cached: seq<byte>, pos: nat)
    requires AllTold(heard, d, T_NS, ReadAll(NameList, cached, pos)) && NameAt(cached, pos) != []
    requires pos < SkipName(cached, pos) <= |cached| + 1 && IsName(NameAt(cached, pos))
    ensures NsName(heard, d, NameAt(cached, pos))
            && AllTold(heard, d, T_NS, ReadAll(NameList, cached, SkipName(cached, pos)))
    ensures NamesOf(ReadAll(NameList, cached, pos))
            == [NameAt(cached, pos)] + NamesOf(ReadAll(NameList, cached, SkipName(cached, pos)))
  {
    hide Told, NameAt, SkipName, IsName;
    var t, rest := NameAt(cached, pos), ReadAll(NameList, cached, SkipName(cached, pos));
    var all := ReadAll(NameList, cached, pos);
    assert all == [[Domain(t)]] + rest;
    assert all[0] == [Domain(t)];
    forall i | 0 <= i < |rest| ensures Told(heard, d, T_NS, rest[i]) { assert all[i + 1] == rest[i]; }
  }

  lemma NoCachedName(cached: seq<byte>, pos: nat)
    requires NameAt(cached, pos) == []
    ensures NamesOf(ReadAll(NameList, cached, pos)) == []
  {
    hide NameAt, SkipName;
  }

  /** Lines 712-718: the first sixteen of the cached names, in order. */
  method NsFromCache(cached: seq<byte>, ghost heard: seq<Heard>, ghost d: seq<byte>)
    returns (ok: bool, list: seq<Option<seq<byte>>>)
    requires AllTold(heard, d, T_NS, ReadAll(NameList, cached, 0))
    ensures ok ==> NsList(heard, d, list) && list == Listed(NamesOf(ReadAll(NameList, cached, 0)))
  {
    hide NameAt, IsName, SkipName, NsName, AllTold, ReadAll, NamesOf, Listed;
    list := NONE;
    ListedNone();
    ghost var names: seq<seq<byte>>, all := [], NamesOf(ReadAll(NameList, cached, 0));
    var pos: nat, j: nat := 0, 0;
    assert [] + all == all;
    while true
      invariant NsList(heard, d, list) && pos <= |cached| + 1 && AllTold(heard, d, T_NS, ReadAll(NameList, cached, pos))
      invariant all == names + NamesOf(ReadAll(NameList, cached, pos))
      invariant list == Listed(names) && j == (if |names| < 16 then |names| else 16)
      decreases |cached| + 1 - pos
    {
      var r, t := NameHere(cached, pos);
      if r == 0 {
        NoCachedName(cached, pos);
        assert names + [] == names;
        return true, list;
      }
      Forward(cached, pos);
      CachedName(heard, d, cached, pos);
      ListedNext(names, t);
      ghost var rest := NamesOf(ReadAll(NameList, cached, r));
      assert names + ([t] + rest) == names + [t] + rest;
      names := names + [t];
      if j < 16 {
        ok := Succeeds();
        if !ok { return; }
        list := list[j := Some(t)];
        j := j + 1;
      }
      pos := r;
    }
  }
}
