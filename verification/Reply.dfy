/**
Replies built by the resolver (`dq/query.c`): the question asked, a chain of aliases from the name
asked to the last name found, and records owned by that last name.
*/
module Reply {
  import opened Bits
  import opened Names
  import opened Message
  import opened Builder = Response
  import opened RecordData
  import opened Wrappers

  ghost function LastSection(recs: seq<Rec>): nat { if recs == [] then ANSWER else recs[|recs| - 1].section }

  /** Record `k` is the CNAME record from link `k` of the chain to the next. */
  ghost predicate Link(ws: seq<Wrote>, recs: seq<Rec>, chain: seq<seq<byte>>, ttls: seq<u32>, k: nat)
    requires k + 1 < |chain| && k < |ttls|
  {
    && k < |recs| && 2 * k + 2 < |ws|
    && ws[2 * k + 1].d == chain[k] && ws[2 * k + 2].d == chain[k + 1]
    && recs[k] == Rec(Raw(ws[2 * k + 1].pos, Fixed([0, 5], ttls[k]), ws[2 * k + 2].pos, ws[2 * k + 2].end), ANSWER,
                      2 * k + 1)
  }

  /** The question is the start of the chain, and the first `n` links are written. */
  ghost predicate Linked(ws: seq<Wrote>, recs: seq<Rec>, chain: seq<seq<byte>>, ttls: seq<u32>, n: nat)
  {
    && |chain| == |ttls| + 1 && n <= |ttls|
    && |ws| > 0 && ws[0].d == chain[0]
    && forall k :: 0 <= k < n ==> Link(ws, recs, chain, ttls, k)
  }

  /** A record of the reply after the chain of aliases. */
  datatype Said = Said(owner: seq<byte>, typ: seq<byte>, ttl: u32, section: nat, items: seq<Item>)

  /** The bytes from `q` to `e` are the item, a name being one the builder wrote there. */
  ghost predicate ItemAt(msg: seq<byte>, ws: seq<Wrote>, item: Item, q: nat, e: nat)
  {
    && q <= e <= |msg|
    && match item
       case Octets(s) => msg[q..e] == s
       case Domain(d) => exists k :: 0 <= k < |ws| && ws[k].pos == q && ws[k].d == d && ws[k].end == e
  }

  /** The bytes from `p` to `e` are the items one after another. */
  ghost predicate Holds(msg: seq<byte>, ws: seq<Wrote>, items: seq<Item>, p: nat, e: nat)
    decreases |items|
  {
    if items == [] then p == e
    else
      var n := |items| - 1;
      exists q :: p <= q && Holds(msg, ws, items[..n], p, q) && ItemAt(msg, ws, items[n], q, e)
  }

  /** The record has the owner, type, lifetime, section and data. */
  ghost predicate SaidAt(msg: seq<byte>, ws: seq<Wrote>, r: Rec, x: Said)
  {
    && |x.typ| == 2 && r.section == x.section && r.raw.fixed == Fixed(x.typ, x.ttl)
    && r.name < |ws| && ws[r.name].d == x.owner
    && 12 <= r.raw.dstart <= r.raw.dend <= |msg| && Holds(msg, ws, x.items, r.raw.dstart, r.raw.dend)
  }

  /** The records from number `n` on are exactly `said`, all of them owned by `d`. */
  ghost predicate AllSaid(msg: seq<byte>, ws: seq<Wrote>, recs: seq<Rec>, n: nat, d: seq<byte>, said: seq<Said>)
  {
    && |recs| == n + |said|
    && forall k :: 0 <= k < |said| ==> Equal(said[k].owner, d) && SaidAt(msg, ws, recs[n + k], said[k])
  }

  /** The whole chain is written, and then the records `said`, owned by its end. */
  ghost predicate Replies(msg: seq<byte>, ws: seq<Wrote>, recs: seq<Rec>, chain: seq<seq<byte>>, ttls: seq<u32>,
                          said: seq<Said>)
  {
    && |chain| == |ttls| + 1 && Linked(ws, recs, chain, ttls, |ttls|)
    && AllSaid(msg, ws, recs, |ttls|, chain[|ttls|], said)
  }

  /** The same bytes hold the same items. */
  lemma {:induction false} HoldsStays(msg: seq<byte>, msg': seq<byte>, ws: seq<Wrote>, ws': seq<Wrote>,
                                      items: seq<Item>, p: nat, e: nat)
    requires Holds(msg, ws, items, p, e) && e <= |msg| && e <= |msg'| && (forall i :: p <= i < e ==> msg'[i] == msg[i])
    requires |ws| <= |ws'| && ws'[..|ws|] == ws
    ensures Holds(msg', ws', items, p, e)
    decreases |items|
  {
    if items != [] {
      var n := |items| - 1;
      var q: nat :| p <= q && Holds(msg, ws, items[..n], p, q) && ItemAt(msg, ws, items[n], q, e);
      HoldsStays(msg, msg', ws, ws', items[..n], p, q);
      ItemStays(msg, msg', ws, ws', items[n], q, e);
    }
  }

  lemma ItemStays(msg: seq<byte>, msg': seq<byte>, ws: seq<Wrote>, ws': seq<Wrote>, item: Item, q: nat, e: nat)
    requires ItemAt(msg, ws, item, q, e) && e <= |msg'| && forall i :: q <= i < e ==> msg'[i] == msg[i]
    requires |ws| <= |ws'| && ws'[..|ws|] == ws
    ensures ItemAt(msg', ws', item, q, e)
  {
    if item.Domain? {
      var k :| 0 <= k < |ws| && ws[k].pos == q && ws[k].d == item.d && ws[k].end == e;
      assert ws'[k] == ws'[..|ws|][k] == ws[k];
    }
  }

  lemma HoldsNext(msg: seq<byte>, msg': seq<byte>, ws: seq<Wrote>, ws': seq<Wrote>, items: seq<Item>, item: Item,
                  p: nat)
    requires p <= |msg| <= |msg'| && msg'[..|msg|] == msg && |ws| <= |ws'| && ws'[..|ws|] == ws
    requires Holds(msg, ws, items, p, |msg|) && ItemAt(msg', ws', item, |msg|, |msg'|)
    ensures Holds(msg', ws', items + [item], p, |msg'|)
  {
    hide Holds, ItemAt;
    assert forall i :: 0 <= i < |msg| ==> msg'[i] == msg'[..|msg|][i] == msg[i];
    HoldsStays(msg, msg', ws, ws', items, p, |msg|);
    HoldsSnoc(msg', ws', items, item, p, |msg|, |msg'|);
  }

  lemma HoldsSnoc(msg: seq<byte>, ws: seq<Wrote>, items: seq<Item>, item: Item, p: nat, q: nat, e: nat)
    requires p <= q && Holds(msg, ws, items, p, q) && ItemAt(msg, ws, item, q, e)
    ensures Holds(msg, ws, items + [item], p, e)
  {
    hide ItemAt;
    var t := items + [item];
    assert t[..|items|] == items && t[|items|] == item;
  }

  lemma SaidStays(msg: seq<byte>, msg': seq<byte>, ws: seq<Wrote>, ws': seq<Wrote>, recs: seq<Rec>, n: nat,
                  d: seq<byte>, said: seq<Said>)
    requires AllSaid(msg, ws, recs, n, d, said) && |msg| <= |msg'| && forall i :: 12 <= i < |msg| ==> msg'[i] == msg[i]
    requires |ws| <= |ws'| && ws'[..|ws|] == ws
    ensures AllSaid(msg', ws', recs, n, d, said)
  {
    hide Holds, Fixed, Equal;
    forall k | 0 <= k < |said| ensures SaidAt(msg', ws', recs[n + k], said[k]) {
      var r := recs[n + k];
      assert SaidAt(msg, ws, r, said[k]);
      assert ws'[r.name] == ws'[..|ws|][r.name];
      HoldsStays(msg, msg', ws, ws', said[k].items, r.raw.dstart, r.raw.dend);
    }
  }

  lemma SaidNext(msg: seq<byte>, ws: seq<Wrote>, recs: seq<Rec>, n: nat, d: seq<byte>, said: seq<Said>, r: Rec, x: Said)
    requires AllSaid(msg, ws, recs, n, d, said) && SaidAt(msg, ws, r, x) && Equal(x.owner, d)
    ensures AllSaid(msg, ws, recs + [r], n, d, said + [x])
  {
    hide SaidAt, Equal;
    var recs', said' := recs + [r], said + [x];
    forall k | 0 <= k < |said'| ensures Equal(said'[k].owner, d) && SaidAt(msg, ws, recs'[n + k], said'[k]) {
      if k < |said| { assert recs'[n + k] == recs[n + k]; }
    }
  }

  lemma LinkedNext(ws: seq<Wrote>, ws': seq<Wrote>, recs: seq<Rec>, r: Rec, chain: seq<seq<byte>>, ttls: seq<u32>,
                   n: nat)
    requires Linked(ws, recs, chain, ttls, n) && n < |ttls| && |recs| == n && |ws| == 2 * n + 1
    requires |ws'| == |ws| + 2 && ws'[..|ws|] == ws && ws'[2 * n + 1].d == chain[n] && ws'[2 * n + 2].d == chain[n + 1]
    requires r == Rec(Raw(ws'[2 * n + 1].pos, Fixed([0, 5], ttls[n]), ws'[2 * n + 2].pos, ws'[2 * n + 2].end), ANSWER,
                      2 * n + 1)
    ensures Linked(ws', recs + [r], chain, ttls, n + 1)
  {
    hide Fixed;
    assert forall i :: 0 <= i < |ws| ==> ws'[i] == ws'[..|ws|][i] == ws[i];
    forall k | 0 <= k < n + 1 ensures Link(ws', recs + [r], chain, ttls, k) {
      if k < n { assert Link(ws, recs, chain, ttls, k); }
    }
  }

  lemma LinksStay(ws: seq<Wrote>, ws': seq<Wrote>, recs: seq<Rec>, r: Rec, chain: seq<seq<byte>>, ttls: seq<u32>)
    requires Linked(ws, recs, chain, ttls, |ttls|) && |ws| <= |ws'| && ws'[..|ws|] == ws
    ensures Linked(ws', recs + [r], chain, ttls, |ttls|)
  {
    hide Fixed;
    assert forall i :: 0 <= i < |ws| ==> ws'[i] == ws'[..|ws|][i] == ws[i];
    var recs' := recs + [r];
    forall k | 0 <= k < |ttls| ensures Link(ws', recs', chain, ttls, k) { assert Link(ws, recs, chain, ttls, k); }
  }

  /** The response is a finished reply along the chain, with the records `said`. */
  ghost predicate Replying(r: Response, chain: seq<seq<byte>>, ttls: seq<u32>, said: seq<Said>)
    reads r, r.buf
  {
    r.Valid() && !r.open && Replies(r.Msg(), r.ws, r.recs, chain, ttls, said)
  }

  /** The first four bytes do not matter. */
  lemma RepliesStay(msg: seq<byte>, msg': seq<byte>, ws: seq<Wrote>, recs: seq<Rec>, chain: seq<seq<byte>>,
                    ttls: seq<u32>, said: seq<Said>)
    requires Replies(msg, ws, recs, chain, ttls, said) && |msg'| == |msg| >= 4 && msg'[4..] == msg[4..]
    ensures Replies(msg', ws, recs, chain, ttls, said)
  {
    hide Linked, AllSaid;
    assert forall i :: 4 <= i < |msg| ==> msg'[i] == msg'[4..][i - 4] == msg[i];
    assert ws[..|ws|] == ws;
    SaidStays(msg, msg', ws, ws, recs, |ttls|, chain[|ttls|], said);
  }

  /** `response_nxdomain` or `response_servfail` on a finished reply. */
  method Refused(r: Response, nxdomain: bool, ghost chain: seq<seq<byte>>, ghost ttls: seq<u32>, ghost said: seq<Said>)
    requires Replying(r, chain, ttls, said)
    modifies r.buf
    ensures Replying(r, chain, ttls, said)
  {
    hide Response.Valid, Replies;
    SaneValid(r);
    LongEnough(r);
    ghost var msg := r.Msg();
    if nxdomain { r.Nxdomain(); } else { r.Servfail(); }
    RepliesStay(msg, r.Msg(), r.ws, r.recs, chain, ttls, said);
  }

  lemma LongEnough(r: Response)
    requires r.Valid()
    ensures 12 <= r.len <= r.buf.Length
  {
  }

  function Shown(r: Response, ttl: u32): u32
    reads r
  {
    if r.hidettl then 0 else ttl
  }

  lemma SaneValid(r: Response)
    requires r.Valid()
    ensures r.Sane()
  {
  }

  lemma OpenLast(r: Response)
    requires r.Valid() && r.open
    ensures r.Sane() && 23 <= r.dpos <= r.len && r.oname < |r.ws| && r.ws[r.oname].pos == r.opos
  {
  }

  /** The data of a record, piece by piece. */
  method EmitItems(r: Response, items: seq<Item>) returns (ok: bool)
    requires r.Valid() && r.open && ItemsOk(items)
    modifies r`len, r`names, r`on, r`sp, r`ws, r.buf
    ensures r.Sane()
    ensures ok ==> r.Valid() && old(r.len) <= r.len && r.Msg()[..old(r.len)] == old(r.Msg()[..r.len])
    ensures ok ==> |r.ws| >= |old(r.ws)| && r.ws[..|old(r.ws)|] == old(r.ws)
    ensures ok ==> Holds(r.Msg(), r.ws, items, old(r.len), r.len)
  {
    hide Response.Valid, IsName, Holds, ItemAt;
    SaneValid(r);
    ghost var m, ws := r.Msg(), r.ws;
    var i := 0;
    HoldsNone(m, ws, |m|);
    assert items[..0] == [];
    while i < |items|
      invariant i <= |items| && r.Valid() && r.open && r.Sane()
      invariant |m| <= r.len && r.Msg()[..|m|] == m && |ws| <= |r.ws| && r.ws[..|ws|] == ws
      invariant Holds(r.Msg(), r.ws, items[..i], |m|, r.len)
    {
      ghost var m1, ws1 := r.Msg(), r.ws;
      ok := EmitItem(r, items[i]);
      if !ok { return; }
      PrefixStays(m, m1, r.Msg());
      assert r.ws[..|ws|] == r.ws[..|ws1|][..|ws|];
      HoldsNext(m1, r.Msg(), ws1, r.ws, items[..i], items[i], |m|);
      assert items[..i] + [items[i]] == items[..i + 1];
      i := i + 1;
    }
    assert items[..i] == items;
    ok := true;
  }

  lemma HoldsNone(msg: seq<byte>, ws: seq<Wrote>, p: nat)
    ensures Holds(msg, ws, [], p, p)
  {
  }

  method EmitItem(r: Response, item: Item) returns (ok: bool)
    requires r.Valid() && r.open && (item.Domain? ==> IsName(item.d))
    modifies r`len, r`names, r`on, r`sp, r`ws, r.buf
    ensures r.Sane()
    ensures ok ==> r.Valid() && old(r.len) <= r.len && r.Msg()[..old(r.len)] == old(r.Msg())
    ensures ok ==> |r.ws| >= |old(r.ws)| && r.ws[..|old(r.ws)|] == old(r.ws)
    ensures ok ==> ItemAt(r.Msg(), r.ws, item, old(r.len), r.len)
  {
    hide Response.Valid, IsName;
    SaneValid(r);
    match item {
      case Octets(s) => ok := r.AddData(s);
      case Domain(d) => ok := r.AddDataName(d);
    }
    if ok { SaneValid(r); }
  }

  /** A record owned by the end of the chain: `response_rstart`, its data piece by piece, `response_rfinish`. */
  method Emit(r: Response, d: seq<byte>, typ: seq<byte>, ttl: u32, section: nat, items: seq<Item>,
              ghost chain: seq<seq<byte>>, ghost ttls: seq<u32>, ghost said: seq<Said>)
    returns (ok: bool)
    requires Replying(r, chain, ttls, said) && IsName(d) && Equal(d, chain[|ttls|]) && |typ| == 2 && ItemsOk(items)
    requires section in {ANSWER, AUTHORITY, ADDITIONAL} && LastSection(r.recs) <= section
    modifies r, r.buf
    ensures r.Sane() && r.hidettl == old(r.hidettl)
    ensures ok ==> Replying(r, chain, ttls, said + [Said(d, typ, Shown(r, ttl), section, items)])
    ensures ok ==> r.ask == old(r.ask) && r.tctarget == old(r.tctarget) && LastSection(r.recs) == section
  {
    hide Response.Valid, Linked, AllSaid, SaidAt, IsName, Equal, Fixed, Holds;
    SaneValid(r);
    ghost var m0, ws, recs := r.Msg(), r.ws, r.recs;
    ok := r.RStart(d, typ, ttl);
    if !ok { return; }
    ghost var m1, ws1 := r.Msg(), r.ws;
    ok := EmitItems(r, items);
    if !ok { return; }
    ghost var m2 := r.Msg();
    OpenLast(r);
    WindowStays(m1, m2, r.dpos - 10, r.dpos - 2);
    r.RFinish(section);
    SaneValid(r);
    EarlierNames(ws, ws1, r.ws);
    ghost var x := Said(d, typ, Shown(r, ttl), section, items);
    Emitted(m0, m1, m2, r.Msg(), ws, r.ws, recs, |ttls|, chain[|ttls|], said, r.recs[|recs|], x);
    LinksStay(ws, r.ws, recs, r.recs[|recs|], chain, ttls);
  }

  lemma Emitted(m0: seq<byte>, m1: seq<byte>, m2: seq<byte>, m3: seq<byte>, ws: seq<Wrote>, ws': seq<Wrote>,
                recs: seq<Rec>, n: nat, d: seq<byte>, said: seq<Said>, r: Rec, x: Said)
    requires |m0| + 2 <= |m1| <= |m2| == |m3| && m1[..|m0|] == m0 && m2[..|m1|] == m1 && 12 <= |m1|
    requires forall i :: 12 <= i < |m3| && i != |m1| - 2 && i != |m1| - 1 ==> m3[i] == m2[i]
    requires AllSaid(m0, ws, recs, n, d, said) && |ws| <= |ws'| && ws'[..|ws|] == ws
    requires Holds(m2, ws', x.items, |m1|, |m2|) && r.raw.dstart == |m1| && r.raw.dend == |m2| && r.section == x.section
    requires |x.typ| == 2 && r.raw.fixed == Fixed(x.typ, x.ttl) && r.name < |ws'| && ws'[r.name].d == x.owner
             && Equal(x.owner, d)
    ensures AllSaid(m3, ws', recs + [r], n, d, said + [x])
  {
    hide AllSaid, Holds, Equal, Fixed;
    assert forall i :: 0 <= i < |m1| ==> m2[i] == m2[..|m1|][i] == m1[i];
    assert forall i :: 0 <= i < |m0| ==> m1[i] == m1[..|m0|][i] == m0[i];
    SaidStays(m0, m3, ws, ws', recs, n, d, said);
    assert ws'[..|ws'|] == ws';
    HoldsStays(m2, m3, ws', ws', x.items, |m1|, |m2|);
    SaidNext(m3, ws', recs, n, d, said, r, x);
  }

  lemma EarlierNames(ws: seq<Wrote>, ws1: seq<Wrote>, ws2: seq<Wrote>)
    requires |ws| < |ws1| <= |ws2| && ws1[..|ws|] == ws && ws2[..|ws1|] == ws1
    ensures ws2[..|ws|] == ws && ws2[|ws|] == ws1[|ws|]
  {
    assert ws2[..|ws1|][|ws|] == ws2[|ws|];
    assert ws2[..|ws|] == ws2[..|ws1|][..|ws|];
  }

  // ----- rqa

  /** The first `n` aliases are set, the newest first. */
  ghost predicate AliasesOk(alias: seq<Option<seq<byte>>>, aliasttl: seq<u32>, n: nat)
  {
    && |alias| == 16 && |aliasttl| == 16 && n <= 16
    && (forall i :: 0 <= i < n ==> alias[i].Some? && IsName(alias[i].value))
    && forall i :: n <= i < 16 ==> alias[i].None?
  }

  /** From the name asked to the last name. */
  ghost function AliasChain(alias: seq<Option<seq<byte>>>, n: nat, last: seq<byte>): (c: seq<seq<byte>>)
    requires n <= |alias| && forall i :: 0 <= i < n ==> alias[i].Some?
    ensures |c| == n + 1 && c[n] == last && forall k :: 0 <= k < n ==> c[k] == alias[n - 1 - k].value
  {
    seq(n + 1, k requires 0 <= k < n + 1 => if k < n then alias[n - 1 - k].value else last)
  }

  ghost function AliasTtls(aliasttl: seq<u32>, n: nat, hideTtl: bool): (t: seq<u32>)
    requires n <= |aliasttl|
    ensures |t| == n && forall k :: 0 <= k < n ==> t[k] == if hideTtl then 0 else aliasttl[n - 1 - k]
  {
    seq(n, k requires 0 <= k < n => if hideTtl then 0 else aliasttl[n - 1 - k])
  }

  /** `rqa`, lines 179-196: the question is the name asked first, and every alias is answered by a CNAME record. */
  method Rqa(r: Response, alias: seq<Option<seq<byte>>>, aliasttl: seq<u32>, name: seq<byte>, qtype: seq<byte>,
             qclass: seq<byte>, ghost n: nat)
    returns (ok: bool)
    requires r.Sane() && AliasesOk(alias, aliasttl, n) && IsName(name) && |qtype| == 2 && |qclass| == 2
    modifies r, r.buf
    ensures r.Sane() && r.hidettl == old(r.hidettl)
    ensures ok ==> Replying(r, AliasChain(alias, n, name), AliasTtls(aliasttl, n, r.hidettl), [])
    ensures ok ==> r.ask == qtype + qclass && LastSection(r.recs) == ANSWER
  {
    hide Response.Valid, IsName;
    ghost var chain, ttls := AliasChain(alias, n, name), AliasTtls(aliasttl, n, r.hidettl);
    var i := 15;
    while i >= 0 && alias[i].None?
      invariant -1 <= i < 16 && n <= i + 1
    {
      i := i - 1;
    }
    if i >= 0 {
      assert i == n - 1;
      ok := r.Query(alias[i].value, qtype, qclass);
      if !ok { return; }
      ok := RqaLinks(r, alias, aliasttl, name, i + 1, chain, ttls);
      return;
    }
    ok := r.Query(name, qtype, qclass);
  }

  /** Lines 186-190. */
  method RqaLinks(r: Response, alias: seq<Option<seq<byte>>>, aliasttl: seq<u32>, name: seq<byte>, n: nat,
                  ghost chain: seq<seq<byte>>, ghost ttls: seq<u32>)
    returns (ok: bool)
    requires r.Valid() && !r.open && r.recs == [] && |r.ws| == 1
    requires AliasesOk(alias, aliasttl, n) && IsName(name) && n > 0 && r.ws[0].d == alias[n - 1].value
    requires chain == AliasChain(alias, n, name) && ttls == AliasTtls(aliasttl, n, r.hidettl)
    modifies r, r.buf
    ensures r.Sane() && r.hidettl == old(r.hidettl)
    ensures ok ==> Replying(r, chain, ttls, []) && r.ask == old(r.ask) && LastSection(r.recs) == ANSWER
  {
    hide Response.Valid, IsName, Linked;
    var i: nat := n - 1;
    SaneValid(r);
    LinkedStart(r.ws, chain, ttls);
    while i > 0
      invariant i < n && r.Sane() && r.Valid() && !r.open && r.hidettl == old(r.hidettl) && r.ask == old(r.ask)
      invariant |r.recs| == n - 1 - i && |r.ws| == 2 * (n - 1 - i) + 1 && LastSection(r.recs) == ANSWER
      invariant Linked(r.ws, r.recs, chain, ttls, n - 1 - i)
    {
      ok := RqaLink(r, alias[i].value, alias[i - 1].value, aliasttl[i], chain, ttls, n - 1 - i);
      if !ok { return; }
      i := i - 1;
    }
    ok := RqaLink(r, alias[0].value, name, aliasttl[0], chain, ttls, n - 1);
  }

  lemma LinkedStart(ws: seq<Wrote>, chain: seq<seq<byte>>, ttls: seq<u32>)
    requires |chain| == |ttls| + 1 && |ws| == 1 && ws[0].d == chain[0]
    ensures Linked(ws, [], chain, ttls, 0)
  {
  }

  /** One CNAME record of the chain. */
  method RqaLink(r: Response, c: seq<byte>, d: seq<byte>, ttl: u32, ghost chain: seq<seq<byte>>, ghost ttls: seq<u32>,
                 ghost k: nat) returns (ok: bool)
    requires r.Valid() && !r.open && Linked(r.ws, r.recs, chain, ttls, k) && k < |ttls| && |r.recs| == k
             && |r.ws| == 2 * k + 1
    requires IsName(c) && IsName(d) && LastSection(r.recs) == ANSWER && chain[k] == c && chain[k + 1] == d
             && ttls[k] == Shown(r, ttl)
    modifies r, r.buf
    ensures r.Sane() && r.hidettl == old(r.hidettl)
    ensures ok ==> r.Valid() && !r.open && r.ask == old(r.ask) && Linked(r.ws, r.recs, chain, ttls, k + 1)
    ensures ok ==> |r.recs| == k + 1 && |r.ws| == 2 * k + 3 && LastSection(r.recs) == ANSWER
  {
    hide Response.Valid, IsName, Link, Fixed;
    ghost var ws, recs := r.ws, r.recs;
    ok := r.Cname(c, d, ttl);
    if !ok { return; }
    LinkedNext(ws, r.ws, recs, r.recs[k], chain, ttls, k);
  }
}
