/**
The data of records in `dq/query.c`: what a packet says, how a set of records is stored in the cache
(lines 925-1043), and how it is read from there (lines 480-686). Reading back what was stored gives
the data the packet had.
*/
module RecordData {
  import opened Bits
  import opened Bytes
  import opened Names
  import opened Packet
  import opened Message
  import opened RecordOrder
  import opened RecordSort
  import opened PacketScan
  import opened Wrappers

  /** One piece of the data of a record. */
  datatype Item = Octets(s: seq<byte>) | Domain(d: seq<byte>)

  ghost predicate ItemsOk(items: seq<Item>)
  {
    forall i :: 0 <= i < |items| && items[i].Domain? ==> IsName(items[i].d)
  }

  // ----- in the packet

  /** The length of the data of the record at `p`. */
  ghost function LengthAt(buf: seq<byte>, p: nat): (n: nat)
    ensures n < 65536
  {
    if DataAt(buf, p) <= |buf| then Be16(buf, DataAt(buf, p) - 2) else 0
  }

  predicate OneName(typ: seq<byte>) { typ == T_NS || typ == T_CNAME || typ == T_PTR }

  /** The data of a record, its names written out; none if it cannot be read. */
  ghost function Data(buf: seq<byte>, q: nat, typ: seq<byte>, len: nat): Option<seq<Item>>
  {
    if OneName(typ) then
      if NameAt(buf, q) == [] then None else Some([Domain(NameAt(buf, q))])
    else if typ == T_MX then
      if q + 2 > |buf| || NameAt(buf, q + 2) == [] then None
      else Some([Octets(buf[q..q + 2]), Domain(NameAt(buf, q + 2))])
    else if typ == T_SOA then
      var q2 := SkipName(buf, q);
      var q3 := SkipName(buf, q2);
      if NameAt(buf, q) == [] || NameAt(buf, q2) == [] || q3 + 20 > |buf| then None
      else Some([Domain(NameAt(buf, q)), Domain(NameAt(buf, q2)), Octets(buf[q3..q3 + 20])])
    else if q + len > |buf| then None else Some([Octets(buf[q..q + len])])
  }

  ghost function DataOf(buf: seq<byte>, p: nat, typ: seq<byte>): Option<seq<Item>>
  {
    Data(buf, DataAt(buf, p), typ, LengthAt(buf, p))
  }

  /** Lines 1137-1158: the data of an answer, its names read out. */
  method RData(buf: seq<byte>, pos: nat, typ: seq<byte>, datalen: nat) returns (ok: bool, items: seq<Item>)
    ensures ok <==> Data(buf, pos, typ, datalen).Some?
    ensures ok ==> items == Data(buf, pos, typ, datalen).value && ItemsOk(items)
  {
    hide NameAt, IsName, SkipName;
    items := [];
    var p, t2, t3, misc;
    if typ == T_NS || typ == T_CNAME || typ == T_PTR {
      p, t2 := NameHere(buf, pos);
      return p != 0, [Domain(t2)];
    } else if typ == T_MX {
      p, misc := Copy(buf, pos, 2);
      if p == 0 { return false, []; }
      p, t2 := NameHere(buf, p);
      return p != 0, [Octets(misc), Domain(t2)];
    } else if typ == T_SOA {
      p, t2 := NameHere(buf, pos);
      if p == 0 { return false, []; }
      p, t3 := NameHere(buf, p);
      if p == 0 { return false, []; }
      p, misc := Copy(buf, p, 20);
      return p != 0, [Domain(t2), Domain(t3), Octets(misc)];
    }
    if pos + datalen > |buf| { return false, []; }
    return true, [Octets(buf[pos..pos + datalen])];
  }

  // ----- in the cache

  /** How the data of a cached set is laid out. */
  datatype Layout = NameList | Preferences | Authorities | Pieces(n: nat) | Prefixed
  {
    predicate Ok() { Pieces? ==> n > 0 }
  }

  function LayoutOf(typ: seq<byte>): (l: Layout)
    ensures l.Ok()
  {
    if OneName(typ) then NameList
    else if typ == T_MX then Preferences
    else if typ == T_SOA then Authorities
    else if typ == T_A then Pieces(4)
    else if typ == T_AAAA then Pieces(16)
    else Prefixed
  }

  ghost predicate Named(i: Item) { i.Domain? && IsName(i.d) && |i.d| <= 255 }

  ghost predicate OctetsOf(i: Item, n: nat) { i.Octets? && |i.s| == n }

  /** The data of one record can be stored in the layout. */
  ghost predicate Fits(layout: Layout, items: seq<Item>)
  {
    match layout
    case NameList => |items| == 1 && Named(items[0])
    case Preferences => |items| == 2 && OctetsOf(items[0], 2) && Named(items[1])
    case Authorities => |items| == 3 && Named(items[0]) && Named(items[1]) && OctetsOf(items[2], 20)
    case Pieces(n) => n > 0 && |items| == 1 && OctetsOf(items[0], n)
    case Prefixed => |items| == 1 && items[0].Octets? && |items[0].s| < 65536
  }

  ghost predicate AllFit(layout: Layout, list: seq<seq<Item>>)
  {
    forall i :: 0 <= i < |list| ==> Fits(layout, list[i])
  }

  /** The bytes stored for one record. */
  ghost function Encode(layout: Layout, items: seq<Item>): seq<byte>
    requires Fits(layout, items)
  {
    match layout
    case NameList => items[0].d
    case Preferences => items[0].s + items[1].d
    case Authorities => items[2].s + items[0].d + items[1].d
    case Pieces(_) => items[0].s
    case Prefixed => ToBe16(|items[0].s|) + items[0].s
  }

  ghost function EncodeAll(layout: Layout, list: seq<seq<Item>>): seq<byte>
    requires AllFit(layout, list)
  {
    if list == [] then [] else EncodeAll(layout, list[..|list| - 1]) + Encode(layout, list[|list| - 1])
  }

  /** What stands at a position of a cached set: the end, a record, or a length that leads too far. */
  datatype Cut = End | Bad | Cut(items: seq<Item>, next: nat)

  ghost function CutAt(layout: Layout, s: seq<byte>, pos: nat): Cut
  {
    match layout
    case NameList => if NameAt(s, pos) == [] then End else Cut([Domain(NameAt(s, pos))], SkipName(s, pos))
    case Preferences =>
      if pos + 2 > |s| || NameAt(s, pos + 2) == [] then End
      else Cut([Octets(s[pos..pos + 2]), Domain(NameAt(s, pos + 2))], SkipName(s, pos + 2))
    case Authorities =>
      var p := SkipName(s, pos + 20);
      if pos + 20 > |s| || NameAt(s, pos + 20) == [] || NameAt(s, p) == [] then End
      else Cut([Domain(NameAt(s, pos + 20)), Domain(NameAt(s, p)), Octets(s[pos..pos + 20])], SkipName(s, p))
    case Pieces(n) => if pos + n > |s| then End else Cut([Octets(s[pos..pos + n])], pos + n)
    case Prefixed =>
      if pos + 2 > |s| then End
      else if pos + 2 + Be16(s, pos) > |s| then Bad
      else Cut([Octets(s[pos + 2..pos + 2 + Be16(s, pos)])], pos + 2 + Be16(s, pos))
  }

  /** The records of a cached set from a position on. */
  ghost function ReadAll(layout: Layout, s: seq<byte>, pos: nat): seq<seq<Item>>
    decreases |s| + 1 - pos
  {
    var c := CutAt(layout, s, pos);
    if c.Cut? && pos < c.next <= |s| + 1 then [c.items] + ReadAll(layout, s, c.next) else []
  }

  /** The next record of a cached set. */
  method NextCached(layout: Layout, cached: seq<byte>, pos: nat) returns (c: Cut)
    requires layout.Ok()
    ensures c == CutAt(layout, cached, pos) && (c.Cut? ==> ItemsOk(c.items) && pos < c.next <= |cached| + 1)
  {
    hide NameAt, IsName, SkipName;
    match layout {
      case NameList =>
        var r, t := NameHere(cached, pos);
        if r == 0 { return End; }
        Forward(cached, pos);
        return Cut([Domain(t)], r);
      case Preferences =>
        var p, misc := Copy(cached, pos, 2);
        if p == 0 { return End; }
        var r, t := NameHere(cached, p);
        if r == 0 { return End; }
        Forward(cached, p);
        return Cut([Octets(misc), Domain(t)], r);
      case Authorities =>
        var p, misc := Copy(cached, pos, 20);
        if p == 0 { return End; }
        var q, t2 := NameHere(cached, p);
        if q == 0 { return End; }
        Forward(cached, p);
        var r, t3 := NameHere(cached, q);
        if r == 0 { return End; }
        Forward(cached, q);
        return Cut([Domain(t2), Domain(t3), Octets(misc)], r);
      case Pieces(n) =>
        if pos + n > |cached| { return End; }
        return Cut([Octets(cached[pos..pos + n])], pos + n);
      case Prefixed =>
        if pos + 2 > |cached| { return End; }
        var datalen := Be16(cached, pos);
        if pos + 2 + datalen > |cached| { return Bad; }
        return Cut([Octets(cached[pos + 2..pos + 2 + datalen])], pos + 2 + datalen);
    }
  }

  lemma Forward(buf: seq<byte>, p: nat)
    requires NameAt(buf, p) != []
    ensures p < SkipName(buf, p) <= |buf| + 1
  {
    hide Spells, SkipName;
    var n := NameAt(buf, p);
    assert exists m: seq<byte> :: Reads(buf, p, m);
    var j: int :| Spells(buf, p, n, j) && WithinLimits(n, j);
    SpellsSkips(buf, p, n, j);
    SkipForward(buf, p);
    SkipWithin(buf, p);
  }

  lemma {:induction false} SkipWithin(buf: seq<byte>, p: nat)
    ensures SkipName(buf, p) <= |buf| + 1
    decreases |buf| - p
  {
    if p < |buf| && 0 < buf[p] < 64 { SkipWithin(buf, p + 1 + buf[p]); }
  }

  // ----- reading back

  /** A name in wire form reads as itself wherever it stands. */
  lemma {:induction false} PlainSpells(s: seq<byte>, pos: nat, n: seq<byte>)
    requires IsName(n) && pos + |n| <= |s| && s[pos..pos + |n|] == n
    ensures Spells(s, pos, n, 0) && SkipName(s, pos) == pos + |n|
    decreases |n|
  {
    hide Spells, SkipName, IsName;
    NameParts(n);
    var l := s[pos];
    assert l == n[0] by { assert s[pos..pos + |n|][0] == l; }
    if l == 0 {
      SpellsRoot(s, pos);
    } else {
      var k: nat, r := pos + 1 + (l as int), n[1 + l..];
      FirstLabel(s, pos, n, 1 + l as int);
      PlainSpells(s, k, r);
      SpellsOne(s, pos, n);
    }
  }

  lemma NameParts(n: seq<byte>)
    requires IsName(n)
    ensures n != [] && if n[0] == 0 then n == [0]
                       else n[0] < 64 && 1 + n[0] as int < |n| && IsName(n[1 + n[0]..])
  {
  }

  lemma SpellsRoot(s: seq<byte>, pos: nat)
    requires pos < |s| && s[pos] == 0
    ensures Spells(s, pos, [0], 0) && SkipName(s, pos) == pos + 1
  {
  }

  lemma SpellsOne(s: seq<byte>, pos: nat, n: seq<byte>)
    requires pos < |s| && 0 < s[pos] < 64 && pos + 1 + s[pos] as int <= |s| && 1 + s[pos] as int <= |n|
    requires n[..1 + s[pos]] == s[pos..pos + 1 + s[pos]] && Spells(s, pos + 1 + s[pos] as int, n[1 + s[pos]..], 0)
    ensures Spells(s, pos, n, 0) && SkipName(s, pos) == SkipName(s, pos + 1 + s[pos])
  {
  }

  lemma FirstLabel(s: seq<byte>, pos: nat, n: seq<byte>, k: nat)
    requires pos + |n| <= |s| && s[pos..pos + |n|] == n && k <= |n|
    ensures s[pos + k..pos + |n|] == n[k..] && s[pos..pos + k] == n[..k]
  {
    assert s[pos + k..pos + |n|] == s[pos..pos + |n|][k..];
    assert s[pos..pos + k] == s[pos..pos + |n|][..k];
  }

  lemma PlainName(s: seq<byte>, pos: nat, n: seq<byte>)
    requires IsName(n) && |n| <= 255 && pos + |n| <= |s| && s[pos..pos + |n|] == n
    ensures NameAt(s, pos) == n && n != [] && SkipName(s, pos) == pos + |n|
  {
    hide Spells;
    PlainSpells(s, pos, n);
    NameAtUnique(s, pos, n, 0);
  }

  lemma NoNameAtEnd(s: seq<byte>, pos: nat)
    requires pos >= |s|
    ensures NameAt(s, pos) == []
  {
  }

  lemma Inside(s: seq<byte>, pos: nat, e: seq<byte>, a: nat, b: nat)
    requires pos + |e| <= |s| && s[pos..pos + |e|] == e && a <= b <= |e|
    ensures s[pos + a..pos + b] == e[a..b]
  {
    SliceSlice(s, pos, pos + |e|, a, b);
  }

  /** A record read where it was stored. */
  lemma CutHere(layout: Layout, s: seq<byte>, pos: nat, items: seq<Item>)
    requires Fits(layout, items) && pos + |Encode(layout, items)| <= |s|
    requires s[pos..pos + |Encode(layout, items)|] == Encode(layout, items)
    ensures CutAt(layout, s, pos) == Cut(items, pos + |Encode(layout, items)|) && Encode(layout, items) != []
  {
    hide IsName, NameAt, SkipName;
    var e := Encode(layout, items);
    match layout {
      case NameList =>
        PlainName(s, pos, items[0].d);
      case Preferences =>
        CutPreference(s, pos, items);
      case Authorities =>
        CutAuthority(s, pos, items);
      case Pieces(n) =>
      case Prefixed =>
        CutPrefixed(s, pos, items);
    }
  }

  lemma CutPreference(s: seq<byte>, pos: nat, items: seq<Item>)
    requires Fits(Preferences, items)
    requires var e := items[0].s + items[1].d; pos + |e| <= |s| && s[pos..pos + |e|] == e
    ensures CutAt(Preferences, s, pos) == Cut(items, pos + 2 + |items[1].d|)
  {
    hide IsName, NameAt, SkipName;
    var m, d := items[0].s, items[1].d;
    var e := m + d;
    Inside(s, pos, e, 0, 2);
    Inside(s, pos, e, 2, |e|);
    assert e[0..2] == m && e[2..|e|] == d;
    PlainName(s, pos + 2, d);
    assert items == [Octets(m), Domain(d)];
  }

  lemma CutAuthority(s: seq<byte>, pos: nat, items: seq<Item>)
    requires Fits(Authorities, items)
    requires var e := items[2].s + items[0].d + items[1].d; pos + |e| <= |s| && s[pos..pos + |e|] == e
    ensures CutAt(Authorities, s, pos) == Cut(items, pos + 20 + |items[0].d| + |items[1].d|)
  {
    hide IsName, NameAt, SkipName;
    var m, a, b := items[2].s, items[0].d, items[1].d;
    var e := m + a + b;
    var k := 20 + |a|;
    Inside(s, pos, e, 0, 20);
    Inside(s, pos, e, 20, k);
    Inside(s, pos, e, k, |e|);
    assert e[0..20] == m && e[20..k] == a && e[k..|e|] == b;
    PlainName(s, pos + 20, a);
    PlainName(s, pos + k, b);
    assert items == [Domain(a), Domain(b), Octets(m)];
  }

  lemma CutPrefixed(s: seq<byte>, pos: nat, items: seq<Item>)
    requires Fits(Prefixed, items)
    requires var e := ToBe16(|items[0].s|) + items[0].s; pos + |e| <= |s| && s[pos..pos + |e|] == e
    ensures CutAt(Prefixed, s, pos) == Cut(items, pos + 2 + |items[0].s|)
  {
    var m := items[0].s;
    var h := ToBe16(|m|);
    var e := h + m;
    Inside(s, pos, e, 0, 2);
    Inside(s, pos, e, 2, |e|);
    assert e[0..2] == h && e[2..|e|] == m;
    assert s[pos] == s[pos..pos + 2][0] && s[pos + 1] == s[pos..pos + 2][1];
    assert items == [Octets(m)];
  }

  lemma CutEnd(layout: Layout, s: seq<byte>)
    requires layout.Ok()
    ensures CutAt(layout, s, |s|) == End
  {
    hide NameAt, SkipName;
    NoNameAtEnd(s, |s|);
  }

  lemma {:induction false} EncodeSplit(layout: Layout, list: seq<seq<Item>>, k: nat)
    requires AllFit(layout, list) && k <= |list|
    ensures EncodeAll(layout, list[..k]) <= EncodeAll(layout, list)
    decreases |list|
  {
    hide Encode, Fits;
    if k == |list| {
      assert list[..k] == list;
    } else {
      var n := |list| - 1;
      EncodeSplit(layout, list[..n], k);
      assert list[..n][..k] == list[..k];
    }
  }

  /** Entry `k` of the list stands after the entries before it. */
  lemma EncodedAt(layout: Layout, list: seq<seq<Item>>, k: nat)
    requires AllFit(layout, list) && k < |list|
    ensures var s, pos, e := EncodeAll(layout, list), |EncodeAll(layout, list[..k])|, Encode(layout, list[k]);
            pos + |e| <= |s| && s[pos..pos + |e|] == e && |EncodeAll(layout, list[..k + 1])| == pos + |e|
  {
    hide Encode, EncodeAll, Fits;
    EncodeSplit(layout, list, k + 1);
    EncodeNext(layout, list, k);
  }

  lemma EncodeNext(layout: Layout, list: seq<seq<Item>>, k: nat)
    requires AllFit(layout, list) && k < |list|
    ensures EncodeAll(layout, list[..k + 1]) == EncodeAll(layout, list[..k]) + Encode(layout, list[k])
  {
    hide Encode, Fits;
    var t := list[..k + 1];
    assert t[..k] == list[..k] && t[k] == list[k];
  }

  lemma {:induction false} ReadFrom(layout: Layout, list: seq<seq<Item>>, k: nat)
    requires layout.Ok() && AllFit(layout, list) && k <= |list|
    ensures ReadAll(layout, EncodeAll(layout, list), |EncodeAll(layout, list[..k])|) == list[k..]
    decreases |list| - k
  {
    hide Encode, EncodeAll, CutAt, Fits;
    var s := EncodeAll(layout, list);
    if k == |list| {
      assert list[..k] == list;
      CutEnd(layout, s);
    } else {
      EncodedAt(layout, list, k);
      CutHere(layout, s, |EncodeAll(layout, list[..k])|, list[k]);
      ReadFrom(layout, list, k + 1);
      assert list[k..] == [list[k]] + list[k + 1..];
    }
  }

  /** What is read from the cache is what was stored. */
  lemma ReadBack(layout: Layout, list: seq<seq<Item>>)
    requires layout.Ok() && AllFit(layout, list)
    ensures ReadAll(layout, EncodeAll(layout, list), 0) == list
  {
    ReadFrom(layout, list, 0);
    assert list[..0] == [] && list[0..] == list;
  }

  // ----- storing a set

  /** The records of a set that are stored: SOA records from the answers, addresses of the right length, all others. */
  ghost predicate Kept(buf: seq<byte>, p: nat, typ: seq<byte>, posauthority: nat)
  {
    if typ == T_SOA then p < posauthority
    else if typ == T_A then LengthAt(buf, p) == 4
    else if typ == T_AAAA then LengthAt(buf, p) == 16
    else true
  }

  /** The data of the records of a set that are stored. */
  ghost function SetItems(buf: seq<byte>, ps: seq<nat>, typ: seq<byte>, posauthority: nat): seq<seq<Item>>
  {
    if ps == [] then []
    else
      var p := ps[|ps| - 1];
      SetItems(buf, ps[..|ps| - 1], typ, posauthority)
      + if Kept(buf, p, typ, posauthority) && DataOf(buf, p, typ).Some? then [DataOf(buf, p, typ).value] else []
  }

  /** Every record of the set that is stored has data that can be read. */
  ghost predicate AllRead(buf: seq<byte>, ps: seq<nat>, typ: seq<byte>, posauthority: nat)
  {
    forall i :: 0 <= i < |ps| && Kept(buf, ps[i], typ, posauthority) ==> DataOf(buf, ps[i], typ).Some?
  }

  lemma ReadNext(buf: seq<byte>, ps: seq<nat>, m: nat, typ: seq<byte>, posauthority: nat, piece: seq<byte>)
    requires m < |ps| && AllRead(buf, ps[..m], typ, posauthority) && PieceOk(buf, ps[m], typ, posauthority, piece)
    ensures AllRead(buf, ps[..m + 1], typ, posauthority)
  {
    hide DataOf, Kept, Fits;
    forall i | 0 <= i < m && Kept(buf, ps[i], typ, posauthority) ensures DataOf(buf, ps[i], typ).Some? {
      assert ps[..m][i] == ps[i];
    }
  }

  /** Then there is one item for each of them. */
  lemma {:induction false} AllReadCount(buf: seq<byte>, ps: seq<nat>, typ: seq<byte>, posauthority: nat)
    requires AllRead(buf, ps, typ, posauthority)
    ensures |SetItems(buf, ps, typ, posauthority)| == KeptCount(buf, ps, typ, posauthority)
  {
    hide DataOf, Kept;
    if ps != [] {
      var n := |ps| - 1;
      forall i | 0 <= i < n && Kept(buf, ps[..n][i], typ, posauthority) ensures DataOf(buf, ps[..n][i], typ).Some? {
        assert ps[..n][i] == ps[i];
      }
      AllReadCount(buf, ps[..n], typ, posauthority);
    }
  }

  ghost function KeptCount(buf: seq<byte>, ps: seq<nat>, typ: seq<byte>, posauthority: nat): nat
  {
    if ps == [] then 0
    else KeptCount(buf, ps[..|ps| - 1], typ, posauthority) + if Kept(buf, ps[|ps| - 1], typ, posauthority) then 1 else 0
  }

  lemma NameAtName(buf: seq<byte>, pos: nat)
    requires NameAt(buf, pos) != []
    ensures IsName(NameAt(buf, pos)) && |NameAt(buf, pos)| <= 255
  {
    hide Spells;
    var n := NameAt(buf, pos);
    assert exists m: seq<byte> :: Reads(buf, pos, m);
    var j: int :| Spells(buf, pos, n, j) && WithinLimits(n, j);
    SpellsName(buf, pos, n, j);
  }

  lemma DataFits(buf: seq<byte>, p: nat, typ: seq<byte>, posauthority: nat)
    requires Kept(buf, p, typ, posauthority) && DataOf(buf, p, typ).Some?
    ensures Fits(LayoutOf(typ), DataOf(buf, p, typ).value)
  {
    hide NameAt, IsName, SkipName, LengthAt;
    var q := DataAt(buf, p);
    if OneName(typ) {
      NameAtName(buf, q);
    } else if typ == T_MX {
      NameAtName(buf, q + 2);
    } else if typ == T_SOA {
      NameAtName(buf, q);
      NameAtName(buf, SkipName(buf, q));
    }
  }

  lemma {:induction false} SetFits(buf: seq<byte>, ps: seq<nat>, typ: seq<byte>, posauthority: nat)
    ensures AllFit(LayoutOf(typ), SetItems(buf, ps, typ, posauthority))
  {
    hide Fits, DataOf, Kept;
    if ps != [] {
      var n := |ps| - 1;
      SetFits(buf, ps[..n], typ, posauthority);
      if Kept(buf, ps[n], typ, posauthority)
         && DataOf(buf, ps[n], typ).Some? { DataFits(buf, ps[n], typ, posauthority); }
    }
  }

  /** Each of them is the data of a record of the set. */
  lemma {:induction false} SetItemOf(buf: seq<byte>, ps: seq<nat>, typ: seq<byte>, posauthority: nat, i: nat)
    returns (m: nat)
    requires i < |SetItems(buf, ps, typ, posauthority)|
    ensures m < |ps| && DataOf(buf, ps[m], typ) == Some(SetItems(buf, ps, typ, posauthority)[i])
  {
    hide DataOf, Kept;
    var n := |ps| - 1;
    if i < |SetItems(buf, ps[..n], typ, posauthority)| {
      m := SetItemOf(buf, ps[..n], typ, posauthority, i);
    } else {
      m := n;
    }
  }

  /** The bytes stored for a set. */
  ghost function SetBytes(buf: seq<byte>, ps: seq<nat>, typ: seq<byte>, posauthority: nat): seq<byte>
  {
    SetFits(buf, ps, typ, posauthority);
    EncodeAll(LayoutOf(typ), SetItems(buf, ps, typ, posauthority))
  }

  /** The cached set reads as the data of its records. */
  lemma SetReadBack(buf: seq<byte>, ps: seq<nat>, typ: seq<byte>, posauthority: nat)
    ensures ReadAll(LayoutOf(typ), SetBytes(buf, ps, typ, posauthority), 0) == SetItems(buf, ps, typ, posauthority)
  {
    SetFits(buf, ps, typ, posauthority);
    ReadBack(LayoutOf(typ), SetItems(buf, ps, typ, posauthority));
  }

  /** What is stored for the record at `p`. */
  ghost predicate PieceOk(buf: seq<byte>, p: nat, typ: seq<byte>, posauthority: nat, piece: seq<byte>)
  {
    if Kept(buf, p, typ, posauthority) then
      && DataOf(buf, p, typ).Some? && Fits(LayoutOf(typ), DataOf(buf, p, typ).value)
      && piece == Encode(LayoutOf(typ), DataOf(buf, p, typ).value)
    else piece == []
  }

  /** What the loops over a set read of a record can be read: of any SOA record, and of a record that is stored. */
  ghost predicate PieceReads(buf: seq<byte>, p: nat, typ: seq<byte>, posauthority: nat)
  {
    (typ == T_SOA || Kept(buf, p, typ, posauthority)) ==> DataOf(buf, p, typ).Some?
  }

  /** The head of the record at `p` can be read. */
  ghost predicate HeadReads(buf: seq<byte>, p: nat) { SkipName(buf, p) != 0 && DataAt(buf, p) <= |buf| }

  /** Lines 958-961 and 981-984. */
  method NamePiece(buf: seq<byte>, p: nat, typ: seq<byte>, posauthority: nat) returns (ok: bool, piece: seq<byte>)
    requires HeadReads(buf, p) && (typ == T_NS || typ == T_PTR)
    ensures ok <==> PieceReads(buf, p, typ, posauthority)
    ensures ok ==> PieceOk(buf, p, typ, posauthority, piece)
  {
    hide NameAt, IsName, SkipName;
    var pos := Skip(buf, p);
    if pos == 0 { return false, []; }
    pos, piece := NameHere(buf, pos + 10);
    ok := pos != 0;
  }

  /** Lines 933-943. */
  method SoaPiece(buf: seq<byte>, p: nat, posauthority: nat) returns (ok: bool, piece: seq<byte>)
    requires HeadReads(buf, p)
    ensures ok <==> PieceReads(buf, p, T_SOA, posauthority)
    ensures ok ==> PieceOk(buf, p, T_SOA, posauthority, piece)
  {
    hide NameAt, IsName, SkipName;
    var t2, t3, misc;
    var pos := Skip(buf, p);
    if pos == 0 { return false, []; }
    pos, t2 := NameHere(buf, pos + 10);
    if pos == 0 { return false, []; }
    pos, t3 := NameHere(buf, pos);
    if pos == 0 { return false, []; }
    pos, misc := Copy(buf, pos, 20);
    return pos != 0, if p < posauthority then misc + t2 + t3 else [];
  }

  /** Lines 992-997. */
  method MxPiece(buf: seq<byte>, p: nat, posauthority: nat) returns (ok: bool, piece: seq<byte>)
    requires HeadReads(buf, p)
    ensures ok <==> PieceReads(buf, p, T_MX, posauthority)
    ensures ok ==> PieceOk(buf, p, T_MX, posauthority, piece)
  {
    hide NameAt, IsName, SkipName;
    var misc, t2;
    var pos := Skip(buf, p);
    if pos == 0 { return false, []; }
    pos, misc := Copy(buf, pos + 10, 2);
    if pos == 0 { return false, []; }
    pos, t2 := NameHere(buf, pos);
    return pos != 0, misc + t2;
  }

  /** Lines 1005-1011 and 1019-1025. */
  method AddressPiece(buf: seq<byte>, p: nat, typ: seq<byte>, posauthority: nat) returns (ok: bool, piece: seq<byte>)
    requires HeadReads(buf, p) && (typ == T_A || typ == T_AAAA)
    ensures ok <==> PieceReads(buf, p, typ, posauthority)
    ensures ok ==> PieceOk(buf, p, typ, posauthority, piece)
  {
    hide SkipName;
    var header;
    var pos := Skip(buf, p);
    if pos == 0 { return false, []; }
    pos, header := Copy(buf, pos, 10);
    if pos == 0 { return false, []; }
    var n := if typ == T_A then 4 else 16;
    if Be16(header, 8) != n { return true, []; }
    pos, piece := Copy(buf, pos, n);
    ok := pos != 0;
  }

  /** Lines 1033-1038. */
  method OtherPiece(buf: seq<byte>, p: nat, typ: seq<byte>, posauthority: nat) returns (ok: bool, piece: seq<byte>)
    requires HeadReads(buf, p) && LayoutOf(typ).Prefixed?
    ensures ok <==> PieceReads(buf, p, typ, posauthority)
    ensures ok ==> PieceOk(buf, p, typ, posauthority, piece)
  {
    hide SkipName;
    var header;
    var pos := Skip(buf, p);
    if pos == 0 { return false, []; }
    pos, header := Copy(buf, pos, 10);
    if pos == 0 { return false, []; }
    var datalen := Be16(header, 8);
    if pos + datalen > |buf| { return false, []; }
    PackBe16(header, 8);
    return true, header[8..] + buf[pos..pos + datalen];
  }

  lemma PackBe16(s: seq<byte>, i: nat)
    requires i + 2 <= |s|
    ensures Be16(s, i) < 65536 && ToBe16(Be16(s, i)) == s[i..i + 2]
  {
  }

  /** The bytes stored for one record of a set of type `typ`. */
  method Piece(buf: seq<byte>, p: nat, typ: seq<byte>, posauthority: nat) returns (ok: bool, piece: seq<byte>)
    requires HeadReads(buf, p) && typ != T_CNAME
    ensures ok <==> PieceReads(buf, p, typ, posauthority)
    ensures ok ==> PieceOk(buf, p, typ, posauthority, piece)
  {
    hide PieceOk, PieceReads, HeadReads;
    if typ == T_NS || typ == T_PTR {
      ok, piece := NamePiece(buf, p, typ, posauthority);
    } else if typ == T_SOA {
      ok, piece := SoaPiece(buf, p, posauthority);
    } else if typ == T_MX {
      ok, piece := MxPiece(buf, p, posauthority);
    } else if typ == T_A || typ == T_AAAA {
      ok, piece := AddressPiece(buf, p, typ, posauthority);
    } else {
      ok, piece := OtherPiece(buf, p, typ, posauthority);
    }
  }

  /** `save_data`, lines 133-139: too much data spoils the entry. */
  function Save(saved: Option<seq<byte>>, s: seq<byte>): Option<seq<byte>>
  {
    if saved.None? || |s| > 8192 - |saved.value| then None else Some(saved.value + s)
  }

  /** What `save_data` has after all the bytes of a set: nothing, if they are too many. */
  function Saved(s: seq<byte>): Option<seq<byte>> { if |s| <= 8192 then Some(s) else None }

  lemma SetNext(buf: seq<byte>, ps: seq<nat>, p: nat, typ: seq<byte>, posauthority: nat, piece: seq<byte>)
    requires PieceOk(buf, p, typ, posauthority, piece)
    ensures SetBytes(buf, ps + [p], typ, posauthority) == SetBytes(buf, ps, typ, posauthority) + piece
  {
    hide Kept, DataOf, Fits, Encode;
    var t := ps + [p];
    assert t[..|ps|] == ps;
    SetFits(buf, ps, typ, posauthority);
    SetFits(buf, t, typ, posauthority);
    var list := SetItems(buf, ps, typ, posauthority);
    if Kept(buf, p, typ, posauthority) {
      var more := list + [DataOf(buf, p, typ).value];
      assert more[..|list|] == list;
    } else {
      assert list + [] == list;
    }
  }

  /** The loops over the records of a set. */
  method Collect(buf: seq<byte>, ps: seq<nat>, typ: seq<byte>, posauthority: nat)
    returns (ok: bool, saved: Option<seq<byte>>, some: bool)
    requires typ != T_CNAME && forall i :: 0 <= i < |ps| ==> HeadReads(buf, ps[i])
    ensures ok <==> forall i :: 0 <= i < |ps| ==> PieceReads(buf, ps[i], typ, posauthority)
    ensures ok ==> AllRead(buf, ps, typ, posauthority) && saved == Saved(SetBytes(buf, ps, typ, posauthority))
    ensures ok ==> (some <==> exists m :: 0 <= m < |ps| && ps[m] < posauthority)
  {
    hide SetBytes, PieceOk, PieceReads, HeadReads;
    saved, some := Some([]), false;
    var m := 0;
    SetNone(buf, typ, posauthority);
    assert ps[..0] == [];
    while m < |ps|
      invariant 0 <= m <= |ps| && saved == Saved(SetBytes(buf, ps[..m], typ, posauthority))
      invariant AllRead(buf, ps[..m], typ, posauthority)
      invariant forall i :: 0 <= i < m ==> PieceReads(buf, ps[i], typ, posauthority)
      invariant some <==> exists x :: 0 <= x < m && ps[x] < posauthority
    {
      var piece;
      ok, piece := Piece(buf, ps[m], typ, posauthority);
      if !ok { return; }
      SetNext(buf, ps[..m], ps[m], typ, posauthority, piece);
      ReadNext(buf, ps, m, typ, posauthority, piece);
      assert ps[..m + 1] == ps[..m] + [ps[m]];
      saved := Save(saved, piece);
      if ps[m] < posauthority { some := true; }
      m := m + 1;
    }
    assert ps[..m] == ps;
    ok := true;
  }

  lemma SetNone(buf: seq<byte>, typ: seq<byte>, posauthority: nat)
    ensures SetBytes(buf, [], typ, posauthority) == []
  {
  }
}
