/**
The zones the resolver is led to, and their servers: which addresses are asked about a zone, and who said that
they are those of its servers. Level by level, the names to be resolved are those of name servers of the zone below.
*/
module Zones {
  import opened Bits
  import opened Names
  import opened Packet
  import opened Message
  import opened RecordOrder
  import opened PacketScan
  import opened RecordData
  import opened Reply
  import opened Provenance
  import Cache
  import opened Wrappers

  // ----- the surroundings

  /** Allocation and sockets: anything may happen. */
  method Succeeds() returns (ok: bool)
  {
    ok := *;
  }

  type Addr = seq<byte>

  const NOWHERE: Addr := [0, 0, 0, 0, 0, 0, 0, 0, 0, 0, 0, 0, 0, 0, 0, 0]
  const NONE: seq<Option<seq<byte>>> := [None, None, None, None, None, None, None, None, None, None, None, None, None,
                                         None, None, None]
  const NOBODY: seq<Addr> := [NOWHERE, NOWHERE, NOWHERE, NOWHERE, NOWHERE, NOWHERE, NOWHERE, NOWHERE,
                              NOWHERE, NOWHERE, NOWHERE, NOWHERE, NOWHERE, NOWHERE, NOWHERE, NOWHERE]

  type Address = a: Addr | |a| == 16 witness NOWHERE

  /** Sixteen addresses; an unused one is all zeros. */
  type Addrs = s: seq<Addr> | |s| == 16 witness NOBODY

  predicate AddrsOk(s: seq<Addr>) { |s| == 16 }

  /**
  What the resolver is configured with: the servers of a zone (`roots`), whether two names have the
  same configured servers (`roots_same`), and the address a name spells (`globalip`, `globalip6`).
  */
  datatype Settings = Settings(roots: seq<byte> -> Option<Addrs>, same: (seq<byte>, seq<byte>) -> bool,
                               globalip: seq<byte> -> Option<Address>, globalip6: seq<byte> -> Option<Address>)

  // ----- where the records of a reply come from

  /** A record the resolver makes itself, lines 404-445. */
  ghost predicate Local(g: Settings, owner: seq<byte>, typ: seq<byte>, items: seq<Item>)
  {
    || (typ == T_A && g.globalip(owner).Some? && items == [Octets(g.globalip(owner).value[12..])])
    || (typ == T_AAAA && g.globalip6(owner).Some? && items == [Octets(g.globalip6(owner).value)])
    || (typ == T_PTR && Equal(owner, LOOPBACK) && items == [Domain(LOCALHOST)])
  }

  /** A record a reply may hold: a packet from servers of a zone its owner is in said so, or it is local. */
  ghost predicate Genuine(g: Settings, heard: seq<Heard>, owner: seq<byte>, typ: seq<byte>, items: seq<Item>)
  {
    Told(heard, owner, typ, items) || Local(g, owner, typ, items)
  }

  ghost predicate AllGenuine(g: Settings, heard: seq<Heard>, said: seq<Said>)
  {
    forall k :: 0 <= k < |said| ==> Genuine(g, heard, said[k].owner, said[k].typ, said[k].items)
  }

  ghost predicate LinkTold(heard: seq<Heard>, chain: seq<seq<byte>>, k: nat)
    requires k + 1 < |chain|
  {
    Told(heard, chain[k], T_CNAME, [Domain(chain[k + 1])])
  }

  /** Every alias of the chain was told. */
  ghost predicate LinksTold(heard: seq<Heard>, chain: seq<seq<byte>>)
  {
    forall k :: 0 <= k < |chain| - 1 ==> LinkTold(heard, chain, k)
  }

  lemma ToldGrows(heard: seq<Heard>, more: seq<Heard>, owner: seq<byte>, typ: seq<byte>, items: seq<Item>)
    requires heard <= more && Told(heard, owner, typ, items)
    ensures Told(more, owner, typ, items)
  {
    hide ToldBy;
    var h :| 0 <= h < |heard| && ToldBy(heard[h], owner, typ, items);
    assert more[h] == heard[h];
  }

  lemma LinksGrow(heard: seq<Heard>, more: seq<Heard>, chain: seq<seq<byte>>)
    requires heard <= more && LinksTold(heard, chain)
    ensures LinksTold(more, chain)
  {
    hide Told;
    forall k | 0 <= k < |chain| - 1 ensures LinkTold(more, chain, k) {
      assert LinkTold(heard, chain, k);
      ToldGrows(heard, more, chain[k], T_CNAME, [Domain(chain[k + 1])]);
    }
  }

  lemma LinksNext(heard: seq<Heard>, chain: seq<seq<byte>>, cname: seq<byte>)
    requires LinksTold(heard, chain) && chain != [] && Told(heard, chain[|chain| - 1], T_CNAME, [Domain(cname)])
    ensures LinksTold(heard, chain + [cname])
  {
    hide Told;
    var t := chain + [cname];
    forall k | 0 <= k < |t| - 1 ensures LinkTold(heard, t, k) {
      if k < |chain| - 1 { assert LinkTold(heard, chain, k); }
    }
  }

  ghost predicate AllTold(heard: seq<Heard>, d: seq<byte>, typ: seq<byte>, list: seq<seq<Item>>)
  {
    forall i :: 0 <= i < |list| ==> Told(heard, d, typ, list[i])
  }

  lemma QuotedStart(d: seq<byte>, typ: seq<byte>, ttl: u32, section: nat, all: seq<seq<Item>>)
    ensures Quoted(d, typ, ttl, section, []) == [] && [] + all == all
  {
  }

  lemma QuotedNext(d: seq<byte>, typ: seq<byte>, ttl: u32, section: nat, done: seq<seq<Item>>, items: seq<Item>)
    ensures Quoted(d, typ, ttl, section, done + [items]) == Quoted(d, typ, ttl, section, done)
                                                            + [Said(d, typ, ttl, section, items)]
  {
  }

  lemma ReadStep(layout: Layout, s: seq<byte>, pos: nat)
    ensures var c := CutAt(layout, s, pos);
            ReadAll(layout, s, pos) == if c.Cut? && pos < c.next <= |s| + 1 then [c.items] + ReadAll(layout, s, c.next)
                                       else []
  {
  }

  lemma ToldStep(g: Settings, heard: seq<Heard>, d: seq<byte>, typ: seq<byte>, all: seq<seq<Item>>,
                 done: seq<seq<Item>>, items: seq<Item>, rest: seq<seq<Item>>)
    requires AllTold(heard, d, typ, all) && all == done + ([items] + rest)
    ensures Genuine(g, heard, d, typ, items) && all == (done + [items]) + rest
  {
    hide Told, Local;
    assert all[|done|] == items;
  }

  /** The records said are those of an entry of the cache. */
  ghost predicate FromStored(stored: seq<Stored>, k: int, ttl: u32, d: seq<byte>, typ: seq<byte>, said: seq<Said>)
  {
    && 0 <= k < |stored| && stored[k].Stored? && stored[k].typ == typ && Equal(stored[k].owner, d)
    && said == Quoted(d, typ, ttl, ANSWER, stored[k].items)
  }

  /** An entry of the cache answers a question, unless it is empty and everything is asked for. */
  predicate Suffices(hit: Option<Found>, dtype: seq<byte>)
  {
    hit.Some? && (hit.value.data != [] || dtype != T_ANY)
  }

  /** Lines 1055-1060: a name pushed onto the aliases extends the chain. */
  lemma PushAlias(heard: seq<Heard>, alias: seq<Option<seq<byte>>>, aliasttl: seq<u32>, n: nat, d: seq<byte>,
                  cname: seq<byte>, ttl: u32)
    requires AliasesOk(alias, aliasttl, n) && alias[15].None? && IsName(d)
    requires LinksTold(heard, AliasChain(alias, n, d)) && Told(heard, d, T_CNAME, [Domain(cname)])
    ensures var a, t := [Some(d)] + alias[..15], [ttl] + aliasttl[..15];
            && AliasesOk(a, t, n + 1) && AliasChain(a, n + 1, cname) == AliasChain(alias, n, d) + [cname]
            && LinksTold(heard, AliasChain(a, n + 1, cname))
               && AliasChain(a, n + 1, cname)[0] == AliasChain(alias, n, d)[0]
  {
    hide LinksTold, Told, IsName;
    LinksNext(heard, AliasChain(alias, n, d), cname);
    var a := [Some(d)] + alias[..15];
    assert AliasChain(a, n + 1, cname) == AliasChain(alias, n, d) + [cname];
  }

  lemma GenuineNext(g: Settings, heard: seq<Heard>, said: seq<Said>, x: Said)
    requires AllGenuine(g, heard, said) && Genuine(g, heard, x.owner, x.typ, x.items)
    ensures AllGenuine(g, heard, said + [x])
  {
    hide Genuine;
  }

  /** The same data for each record of a list. */
  ghost function Quoted(d: seq<byte>, typ: seq<byte>, ttl: u32, section: nat, list: seq<seq<Item>>): (said: seq<Said>)
    ensures |said| == |list| && forall i :: 0 <= i < |list| ==> said[i] == Said(d, typ, ttl, section, list[i])
  {
    seq(|list|, i requires 0 <= i < |list| => Said(d, typ, ttl, section, list[i]))
  }

  // ----- zones

  ghost predicate NameOk(o: Option<seq<byte>>) { o.Some? && IsName(o.value) }

  /** The zone asked about is a tail of the name. */
  ghost predicate InControl(o: Option<seq<byte>>, c: nat)
  {
    NameOk(o) && c < |o.value| && Boundary(o.value, c)
  }

  /** The names of levels 0 to `n` and, below `n`, their zones. */
  ghost predicate Stack(name: seq<Option<seq<byte>>>, control: seq<nat>, n: nat)
  {
    && |name| == 5 && |control| == 5 && n < 5 && NameOk(name[n])
    && forall i :: 0 <= i < n ==> InControl(name[i], control[i])
  }

  /** The name was told as that of a name server of the zone. */
  ghost predicate NsName(heard: seq<Heard>, zone: seq<byte>, n: seq<byte>)
  {
    IsName(n) && Told(heard, zone, T_NS, [Domain(n)])
  }

  ghost predicate NsList(heard: seq<Heard>, zone: seq<byte>, list: seq<Option<seq<byte>>>)
  {
    |list| == 16 && forall j :: 0 <= j < 16 && list[j].Some? ==> NsName(heard, zone, list[j].value)
  }

  /** Sixteen names or places for them at each level. */
  ghost predicate NsOk(ns: seq<seq<Option<seq<byte>>>>)
  {
    |ns| == 5 && forall i :: 0 <= i < 5 ==> |ns[i]| == 16
  }

  lemma NsNone(heard: seq<Heard>, zone: seq<byte>)
    ensures NsList(heard, zone, NONE)
  {
  }

  lemma NsDrop(heard: seq<Heard>, zone: seq<byte>, list: seq<Option<seq<byte>>>, j: nat)
    requires NsList(heard, zone, list) && j < 16
    ensures NsList(heard, zone, list[j := None])
  {
    hide NsName;
  }

  lemma NsGrow(heard: seq<Heard>, more: seq<Heard>, zone: seq<byte>, list: seq<Option<seq<byte>>>)
    requires heard <= more && NsList(heard, zone, list)
    ensures NsList(more, zone, list)
  {
    hide Told, IsName;
    forall j | 0 <= j < 16 && list[j].Some? ensures NsName(more, zone, list[j].value) {
      assert NsName(heard, zone, list[j].value);
      ToldGrows(heard, more, zone, T_NS, [Domain(list[j].value)]);
    }
  }

  lemma NsEqual(heard: seq<Heard>, zone: seq<byte>, other: seq<byte>, list: seq<Option<seq<byte>>>)
    requires NsList(heard, zone, list) && Equal(zone, other)
    ensures NsList(heard, other, list)
  {
    hide ToldBy, IsName, Equal;
    forall j | 0 <= j < 16 && list[j].Some? ensures NsName(heard, other, list[j].value) {
      var items := [Domain(list[j].value)];
      assert NsName(heard, zone, list[j].value);
      var h :| 0 <= h < |heard| && ToldBy(heard[h], zone, T_NS, items);
      SaysEqual(heard[h], zone, other, T_NS, items);
    }
  }

  ghost predicate ServersOk(servers: seq<seq<Addr>>)
  {
    |servers| == 5 && forall i :: 0 <= i < 5 ==> AddrsOk(servers[i])
  }

  lemma StackTop(name: seq<Option<seq<byte>>>, control: seq<nat>, n: nat)
    requires Stack(name, control, n)
    ensures |name| == 5 && n < 5 && name[n].Some? && IsName(name[n].value)
  {
  }

  lemma EqualBack(a: seq<byte>, b: seq<byte>)
    requires Equal(a, b)
    ensures Equal(b, a)
  {
  }

  lemma InControlAt(o: Option<seq<byte>>, c: nat)
    requires NameOk(o) && c < |o.value| && Boundary(o.value, c)
    ensures InControl(o, c) && TailOf(o, c) == o.value[c..]
  {
  }

  lemma TailSuffix(d: seq<byte>, c: nat)
    requires IsName(d) && c < |d| && Boundary(d, c)
    ensures IsName(d[c..]) && Suffix(d, d[c..])
  {
    BoundaryName(d, c);
    assert Equal(d[c..], d[c..]);
  }

  /** A referral into the zone and not to the zone itself leads to a longer tail of the name. */
  lemma ReferralLonger(d: seq<byte>, c: nat, referral: seq<byte>, n: nat)
    requires IsName(d) && IsName(referral) && c < |d| && Boundary(d, c)
    requires Suffix(referral, d[c..]) && !Equal(referral, d[c..])
    requires n < |d| && Boundary(d, n) && Equal(d[n..], referral)
    ensures n < c
  {
    var zone := d[c..];
    var m :| 0 <= m <= |referral| && Boundary(referral, m) && Equal(referral[m..], zone);
    EqualLength(referral[m..], zone);
    EqualLength(d[n..], referral);
    assert referral[0..] == referral;
  }

  // ----- the addresses that are asked

  /** The name has the address: it was told, or the name spells it. */
  ghost predicate AddressOf(g: Settings, heard: seq<Heard>, d: seq<byte>, a: Addr)
  {
    && |a| == 16
    && (|| (a[..12] == V4 && Told(heard, d, T_A, [Octets(a[12..])]))
        || Told(heard, d, T_AAAA, [Octets(a)])
        || (g.globalip(d).Some? && g.globalip(d).value == a)
        || (g.globalip6(d).Some? && g.globalip6(d).value == a))
  }

  ghost predicate Configured(g: Settings, d: seq<byte>, a: Addr) { g.roots(d).Some? && a in g.roots(d).value }

  /** Told aliases lead from a name told as that of a name server of the zone to the name `d`. */
  ghost predicate Leads(heard: seq<Heard>, zone: seq<byte>, ch: seq<seq<byte>>, d: seq<byte>)
  {
    ch != [] && ch[|ch| - 1] == d && Told(heard, zone, T_NS, [Domain(ch[0])]) && LinksTold(heard, ch)
  }

  ghost predicate Sought(heard: seq<Heard>, zone: seq<byte>, d: seq<byte>)
  {
    exists ch :: Leads(heard, zone, ch, d)
  }

  /** A server of the zone: one that is configured for it, or whose address was told for a name server of the zone. */
  ghost predicate ServerOf(g: Settings, heard: seq<Heard>, zone: seq<byte>, a: Addr)
  {
    Configured(g, zone, a) || exists d :: Sought(heard, zone, d) && AddressOf(g, heard, d, a)
  }

  /** Every address of the level is one of a server of the zone. */
  ghost predicate LevelServed(g: Settings, heard: seq<Heard>, zone: seq<byte>, s: seq<Addr>)
  {
    forall j :: 0 <= j < |s| && s[j] != NOWHERE ==> ServerOf(g, heard, zone, s[j])
  }

  ghost predicate LevelOk(g: Settings, heard: seq<Heard>, zone: seq<byte>, list: seq<Option<seq<byte>>>, s: seq<Addr>)
  {
    NsList(heard, zone, list) && LevelServed(g, heard, zone, s)
  }

  ghost function TailOf(o: Option<seq<byte>>, c: nat): seq<byte>
  {
    if o.Some? && c <= |o.value| then o.value[c..] else []
  }

  /** The level above looks for the address of a name server of the zone of level `i`. */
  ghost predicate Below(g: Settings, heard: seq<Heard>, name: seq<Option<seq<byte>>>, control: seq<nat>,
                        ns: seq<seq<Option<seq<byte>>>>, servers: seq<seq<Addr>>, i: nat)
    requires i + 1 < |name| && i < |control| && i < |ns| && i < |servers|
  {
    var zone := TailOf(name[i], control[i]);
    LevelOk(g, heard, zone, ns[i], servers[i]) && name[i + 1].Some? && Sought(heard, zone, name[i + 1].value)
  }

  ghost predicate LevelsOk(g: Settings, heard: seq<Heard>, name: seq<Option<seq<byte>>>, control: seq<nat>,
                           ns: seq<seq<Option<seq<byte>>>>, servers: seq<seq<Addr>>, n: nat)
  {
    && |name| == 5 && |control| == 5 && |ns| == 5 && |servers| == 5 && n < 5
    && forall i :: 0 <= i < n ==> Below(g, heard, name, control, ns, servers, i)
  }

  /** Every packet came from a server of its zone, as the packets before it told, if it is not configured. */
  ghost predicate HeardOk(g: Settings, heard: seq<Heard>)
  {
    forall k :: 0 <= k < |heard| ==> ServerOf(g, heard[..k], heard[k].zone, heard[k].from)
  }

  lemma HeardNext(g: Settings, heard: seq<Heard>, m: Heard)
    requires HeardOk(g, heard) && ServerOf(g, heard, m.zone, m.from)
    ensures HeardOk(g, heard + [m])
  {
    hide ServerOf;
    var t := heard + [m];
    forall k | 0 <= k < |t| ensures ServerOf(g, t[..k], t[k].zone, t[k].from) {
      assert t[..k] == heard[..k];
      if k == |heard| { assert heard[..k] == heard; }
    }
  }

  lemma SoughtFirst(heard: seq<Heard>, zone: seq<byte>, n: seq<byte>)
    requires Told(heard, zone, T_NS, [Domain(n)])
    ensures Sought(heard, zone, n)
  {
    hide Told;
    assert Leads(heard, zone, [n], n);
  }

  lemma SoughtNext(heard: seq<Heard>, zone: seq<byte>, d: seq<byte>, cname: seq<byte>)
    requires Sought(heard, zone, d) && Told(heard, d, T_CNAME, [Domain(cname)])
    ensures Sought(heard, zone, cname)
  {
    hide Told, LinksTold;
    var ch :| Leads(heard, zone, ch, d);
    LinksNext(heard, ch, cname);
    assert Leads(heard, zone, ch + [cname], cname);
  }

  lemma SoughtGrows(heard: seq<Heard>, more: seq<Heard>, zone: seq<byte>, d: seq<byte>)
    requires heard <= more && Sought(heard, zone, d)
    ensures Sought(more, zone, d)
  {
    hide Told, LinksTold;
    var ch :| Leads(heard, zone, ch, d);
    ToldGrows(heard, more, zone, T_NS, [Domain(ch[0])]);
    LinksGrow(heard, more, ch);
    assert Leads(more, zone, ch, d);
  }

  lemma AddressGrows(g: Settings, heard: seq<Heard>, more: seq<Heard>, d: seq<byte>, a: Addr)
    requires heard <= more && AddressOf(g, heard, d, a)
    ensures AddressOf(g, more, d, a)
  {
    hide Told;
    if Told(heard, d, T_A, [Octets(a[12..])]) { ToldGrows(heard, more, d, T_A, [Octets(a[12..])]); }
    if Told(heard, d, T_AAAA, [Octets(a)]) { ToldGrows(heard, more, d, T_AAAA, [Octets(a)]); }
  }

  lemma ServerGrows(g: Settings, heard: seq<Heard>, more: seq<Heard>, zone: seq<byte>, a: Addr)
    requires heard <= more && ServerOf(g, heard, zone, a)
    ensures ServerOf(g, more, zone, a)
  {
    hide Sought, AddressOf, Configured;
    if !Configured(g, zone, a) {
      var d :| Sought(heard, zone, d) && AddressOf(g, heard, d, a);
      SoughtGrows(heard, more, zone, d);
      AddressGrows(g, heard, more, d, a);
    }
  }

  lemma LevelGrows(g: Settings, heard: seq<Heard>, more: seq<Heard>, zone: seq<byte>, list: seq<Option<seq<byte>>>,
                   s: seq<Addr>)
    requires heard <= more && LevelOk(g, heard, zone, list, s)
    ensures LevelOk(g, more, zone, list, s)
  {
    hide ServerOf, NsList;
    NsGrow(heard, more, zone, list);
    forall j | 0 <= j < |s| && s[j] != NOWHERE ensures ServerOf(g, more, zone, s[j]) {
      ServerGrows(g, heard, more, zone, s[j]);
    }
  }

  lemma LevelsGrow(g: Settings, heard: seq<Heard>, more: seq<Heard>, name: seq<Option<seq<byte>>>, control: seq<nat>,
                   ns: seq<seq<Option<seq<byte>>>>, servers: seq<seq<Addr>>, n: nat)
    requires heard <= more && LevelsOk(g, heard, name, control, ns, servers, n)
    ensures LevelsOk(g, more, name, control, ns, servers, n)
  {
    hide LevelOk, Sought, TailOf;
    forall i | 0 <= i < n ensures Below(g, more, name, control, ns, servers, i) {
      assert Below(g, heard, name, control, ns, servers, i);
      LevelGrows(g, heard, more, TailOf(name[i], control[i]), ns[i], servers[i]);
      SoughtGrows(heard, more, TailOf(name[i], control[i]), name[i + 1].value);
    }
  }

  /** What is at level `n` and above does not matter below. */
  lemma LevelsSame(g: Settings, heard: seq<Heard>, name: seq<Option<seq<byte>>>, control: seq<nat>,
                   ns: seq<seq<Option<seq<byte>>>>, servers: seq<seq<Addr>>, name': seq<Option<seq<byte>>>,
                   control': seq<nat>, ns': seq<seq<Option<seq<byte>>>>, servers': seq<seq<Addr>>, n: nat, m: nat)
    requires LevelsOk(g, heard, name, control, ns, servers, n) && m <= n
    requires |name'| == 5 && |control'| == 5 && |ns'| == 5 && |servers'| == 5
    requires forall i :: 0 <= i <= m ==> name'[i] == name[i]
    requires forall i :: 0 <= i < m ==> control'[i] == control[i] && ns'[i] == ns[i] && servers'[i] == servers[i]
    ensures LevelsOk(g, heard, name', control', ns', servers', m)
  {
    hide LevelOk, Sought, TailOf;
    forall i | 0 <= i < m ensures Below(g, heard, name', control', ns', servers', i) {
      assert Below(g, heard, name, control, ns, servers, i);
    }
  }

  /** One level more. */
  lemma LevelsUp(g: Settings, heard: seq<Heard>, name: seq<Option<seq<byte>>>, control: seq<nat>,
                 ns: seq<seq<Option<seq<byte>>>>, servers: seq<seq<Addr>>, n: nat, j: nat)
    requires LevelsOk(g, heard, name, control, ns, servers, n) && n + 1 < 5
    requires LevelOk(g, heard, TailOf(name[n], control[n]), ns[n], servers[n]) && j < 16 && |ns[n]| == 16
             && ns[n][j].Some?
    ensures LevelsOk(g, heard, name[n + 1 := ns[n][j]], control, ns[n := ns[n][j := None]], servers, n + 1)
  {
    hide LevelServed, Sought, Told, IsName, TailOf;
    var name', ns' := name[n + 1 := ns[n][j]], ns[n := ns[n][j := None]];
    var zone := TailOf(name[n], control[n]);
    LevelsSame(g, heard, name, control, ns, servers, name', control, ns', servers, n, n);
    NsDrop(heard, zone, ns[n], j);
    assert NsName(heard, zone, ns[n][j].value);
    SoughtFirst(heard, zone, ns[n][j].value);
    assert Below(g, heard, name', control, ns', servers, n);
  }

  /** One level less. */
  lemma LevelsDown(g: Settings, heard: seq<Heard>, name: seq<Option<seq<byte>>>, control: seq<nat>,
                   ns: seq<seq<Option<seq<byte>>>>, servers: seq<seq<Addr>>, n: nat)
    requires LevelsOk(g, heard, name, control, ns, servers, n) && n > 0
    ensures LevelsOk(g, heard, name[n := None], control, ns[n := NONE], servers, n - 1)
    ensures LevelOk(g, heard, TailOf(name[n - 1], control[n - 1]), ns[n - 1], servers[n - 1])
  {
    hide LevelOk, Sought, TailOf;
    assert Below(g, heard, name, control, ns, servers, n - 1);
    LevelsSame(g, heard, name, control, ns, servers, name[n := None], control, ns[n := NONE], servers, n, n - 1);
  }

  /** Another name is sought instead, because of an alias. */
  lemma LevelsAlias(g: Settings, heard: seq<Heard>, name: seq<Option<seq<byte>>>, control: seq<nat>,
                    ns: seq<seq<Option<seq<byte>>>>, servers: seq<seq<Addr>>, n: nat, cname: seq<byte>)
    requires LevelsOk(g, heard, name, control, ns, servers, n) && name[n].Some?
             && Told(heard, name[n].value, T_CNAME, [Domain(cname)])
    ensures LevelsOk(g, heard, name[n := Some(cname)], control, ns, servers, n)
  {
    hide LevelOk, Sought, TailOf, Told;
    var name' := name[n := Some(cname)];
    forall i | 0 <= i < n ensures Below(g, heard, name', control, ns, servers, i) {
      assert Below(g, heard, name, control, ns, servers, i);
      if i + 1 == n { SoughtNext(heard, TailOf(name[i], control[i]), name[n].value, cname); }
    }
  }

  /** A server is added to the level below. */
  lemma LevelsServer(g: Settings, heard: seq<Heard>, name: seq<Option<seq<byte>>>, control: seq<nat>,
                     ns: seq<seq<Option<seq<byte>>>>, servers: seq<seq<Addr>>, n: nat, a: Addr, wanted: bool)
    requires LevelsOk(g, heard, name, control, ns, servers, n) && n > 0 && name[n].Some?
             && AddressOf(g, heard, name[n].value, a)
    ensures LevelsOk(g, heard, name, control, ns, servers[n - 1 := Added(servers[n - 1], a, wanted)], n)
  {
    hide NsList, Sought, TailOf, AddressOf, Configured, Added;
    var s := Added(servers[n - 1], a, wanted);
    var servers', zone := servers[n - 1 := s], TailOf(name[n - 1], control[n - 1]);
    assert Below(g, heard, name, control, ns, servers, n - 1);
    assert ServerOf(g, heard, zone, a);
    AddedServed(g, heard, zone, servers[n - 1], a, wanted);
    forall i | 0 <= i < n ensures Below(g, heard, name, control, ns, servers', i) {
      assert Below(g, heard, name, control, ns, servers, i);
    }
  }

  lemma {:induction false} AddedServed(g: Settings, heard: seq<Heard>, zone: seq<byte>, s: seq<Addr>, addr: Addr,
                                       wanted: bool)
    requires LevelServed(g, heard, zone, s) && ServerOf(g, heard, zone, addr)
    ensures LevelServed(g, heard, zone, Added(s, addr, wanted))
  {
    hide ServerOf;
    if s != [] { AddedServed(g, heard, zone, s[1..], addr, wanted); }
  }

  lemma NobodyServed(g: Settings, heard: seq<Heard>, zone: seq<byte>)
    ensures LevelServed(g, heard, zone, NOBODY)
  {
  }

  lemma RootsServed(g: Settings, heard: seq<Heard>, zone: seq<byte>)
    requires g.roots(zone).Some?
    ensures LevelServed(g, heard, zone, g.roots(zone).value)
  {
    hide AddressOf, Sought;
    var s := g.roots(zone).value;
    forall j | 0 <= j < |s| && s[j] != NOWHERE ensures ServerOf(g, heard, zone, s[j]) {
      assert Configured(g, zone, s[j]);
    }
  }

  lemma DropServed(g: Settings, heard: seq<Heard>, zone: seq<byte>, s: seq<Addr>, server: nat)
    requires LevelServed(g, heard, zone, s) && server < |s|
    ensures LevelServed(g, heard, zone, s[server := NOWHERE])
  {
    hide ServerOf;
  }

  /** An address record told about a name. */
  lemma ToldAddress(g: Settings, heard: seq<Heard>, d: seq<byte>, typ: seq<byte>, x: seq<byte>)
    requires Told(heard, d, typ, [Octets(x)]) && ((typ == T_A && |x| == 4) || (typ == T_AAAA && |x| == 16))
    ensures AddressOf(g, heard, d, (if |x| == 4 then V4 else []) + x)
  {
    hide Told;
    var a := (if |x| == 4 then V4 else []) + x;
    assert |x| == 4 ==> a[..12] == V4 && a[12..] == x;
    assert |x| == 16 ==> a == x;
  }

  /** Addresses added one after another, lines 303-339. */
  ghost function AddedAll(s: seq<Addr>, list: seq<Addr>, twice: bool): seq<Addr>
  {
    if list == [] then s
    else
      var n := |list| - 1;
      Added(Added(AddedAll(s, list[..n], twice), list[n], true), list[n], twice)
  }

  lemma AddedNext(s: seq<Addr>, list: seq<Addr>, a: Addr, twice: bool)
    ensures AddedAll(s, list + [a], twice) == Added(Added(AddedAll(s, list, twice), a, true), a, twice)
  {
    assert (list + [a])[..|list|] == list;
  }

  /** The addresses of a cached set. */
  ghost function CachedAddrs(data: seq<byte>, n: nat, pos: nat): seq<Addr>
    requires n > 0
    decreases |data| - pos
  {
    if pos + n > |data| then []
    else [(if n == 4 then V4 else []) + data[pos..pos + n]] + CachedAddrs(data, n, pos + n)
  }

  lemma AddedNone(s: seq<Addr>, twice: bool)
    ensures AddedAll(s, [], twice) == s
  {
  }

  lemma CachedAddrsStep(data: seq<byte>, n: nat, pos: nat)
    requires n > 0
    ensures CachedAddrs(data, n, pos)
            == if pos + n > |data| then []
               else [(if n == 4 then V4 else []) + data[pos..pos + n]] + CachedAddrs(data, n, pos + n)
  {
  }

  lemma PieceTold(g: Settings, heard: seq<Heard>, d: seq<byte>, typ: seq<byte>, data: seq<byte>, pos: nat)
    requires typ == T_A || typ == T_AAAA
    requires AllTold(heard, d, typ, ReadAll(LayoutOf(typ), data, pos))
    requires pos + (if typ == T_A then 4 else 16) <= |data|
    ensures var n := if typ == T_A then 4 else 16;
            && AddressOf(g, heard, d, (if n == 4 then V4 else []) + data[pos..pos + n])
            && AllTold(heard, d, typ, ReadAll(LayoutOf(typ), data, pos + n))
  {
    hide Told, AddressOf;
    var n := if typ == T_A then 4 else 16;
    var x, rest := data[pos..pos + n], ReadAll(LayoutOf(typ), data, pos + n);
    var all := ReadAll(LayoutOf(typ), data, pos);
    assert all == [[Octets(x)]] + rest;
    assert all[0] == [Octets(x)];
    ToldAddress(g, heard, d, typ, x);
    forall i | 0 <= i < |rest| ensures Told(heard, d, typ, rest[i]) { assert all[i + 1] == rest[i]; }
  }

  lemma AddrHere(buf: seq<byte>, p: nat, d: seq<byte>, typ: seq<byte>, x: seq<byte>)
    requires Owned(buf, p, d) && TypeAt(buf, p) == typ && ((typ == T_A && |x| == 4) || (typ == T_AAAA && |x| == 16))
    requires LengthAt(buf, p) == |x| && DataAt(buf, p) + |x| <= |buf|
    requires x == buf[DataAt(buf, p)..DataAt(buf, p) + |x|]
    ensures AddrAt(buf, p, d) == [(if |x| == 4 then V4 else []) + x]
  {
    assert [] + x == x;
  }

  lemma NoAddrs(buf: seq<byte>, s: seq<Addr>, d: seq<byte>, twice: bool)
    ensures AddedAll(s, AnswerAddrs(buf, [], d), twice) == s
  {
  }

  lemma AddedAt(s: seq<Addr>, list: seq<Addr>, more: seq<Addr>, twice: bool)
    requires |more| <= 1
    ensures AddedAll(s, list + more, twice)
            == if more == [] then AddedAll(s, list, twice)
               else Added(Added(AddedAll(s, list, twice), more[0], true), more[0], twice)
  {
    if more == [] {
      assert list + more == list;
    } else {
      assert more == [more[0]];
      AddedNext(s, list, more[0], twice);
    }
  }

  lemma AnswerTold(g: Settings, heard: seq<Heard>, m: Heard, p: nat, d: seq<byte>, typ: seq<byte>, x: seq<byte>)
    requires heard != [] && heard[|heard| - 1] == m && IsName(d) && Suffix(d, m.zone)
    requires IsRecord(m.buf, p) && Readable(m.buf, p) && Owned(m.buf, p, d) && TypeAt(m.buf, p) == typ
    requires (typ == T_A && |x| == 4) || (typ == T_AAAA && |x| == 16)
    requires LengthAt(m.buf, p) == |x| && DataAt(m.buf, p) + |x| <= |m.buf|
    requires x == m.buf[DataAt(m.buf, p)..DataAt(m.buf, p) + |x|]
    ensures AddressOf(g, heard, d, (if |x| == 4 then V4 else []) + x)
  {
    hide IsName, Suffix, IsRecord, NameAt, SkipName, ToldBy, AddressOf;
    WalkNamed(m.buf, p);
    RecordSays(m, p, d, typ, [Octets(x)]);
    ToldNow(heard, |heard| - 1, d, typ, [Octets(x)]);
    ToldAddress(g, heard, d, typ, x);
  }

  /** The address in a record about the name. */
  ghost function AddrAt(buf: seq<byte>, p: nat, d: seq<byte>): seq<Addr>
  {
    var q, n := DataAt(buf, p), LengthAt(buf, p);
    if !Owned(buf, p, d) || q + n > |buf| then []
    else if TypeAt(buf, p) == T_A && n == 4 then [V4 + buf[q..q + n]]
    else if TypeAt(buf, p) == T_AAAA && n == 16 then [buf[q..q + n]]
    else []
  }

  ghost function AnswerAddrs(buf: seq<byte>, ps: seq<nat>, d: seq<byte>): seq<Addr>
  {
    if ps == [] then [] else AnswerAddrs(buf, ps[..|ps| - 1], d) + AddrAt(buf, ps[|ps| - 1], d)
  }

  lemma AnswerAddrsNext(buf: seq<byte>, ps: seq<nat>, j: nat, d: seq<byte>)
    requires j < |ps|
    ensures AnswerAddrs(buf, ps[..j + 1], d) == AnswerAddrs(buf, ps[..j], d) + AddrAt(buf, ps[j], d)
  {
    hide AddrAt;
    var t := ps[..j + 1];
    assert t[..j] == ps[..j] && t[j] == ps[j];
  }

  // ----- the servers of a zone

  /** The cache has name servers for the zone at a moment. */
  ghost predicate NsAt(c: Cache.Cache, d: seq<byte>, now: nat)
    reads c
  {
    var hit := LookAt(c, KeyOf(T_NS, d), now);
    hit.Some? && hit.value.data != []
  }

  /**
  Servers of the zone are configured or, where the cache is asked, were cached at one of the readings `lo` to `hi`
  of the clock.
  */
  ghost predicate Served(c: Cache.Cache, g: Settings, asks: bool, d: seq<byte>, reading: nat -> nat, lo: nat, hi: nat)
    reads c
  {
    g.roots(d).Some? || (asks && |d| < 255 && exists i :: lo <= i < hi && NsAt(c, d, reading(i)))
  }

  /** They are not configured and, where the cache is asked, were not cached at one of the readings. */
  ghost predicate Unserved(c: Cache.Cache, g: Settings, asks: bool, d: seq<byte>, reading: nat -> nat, lo: nat, hi: nat)
    reads c
  {
    g.roots(d).None? && (asks && |d| < 255 ==> exists i :: lo <= i < hi && !NsAt(c, d, reading(i)))
  }

  ghost predicate UnservedBefore(c: Cache.Cache, g: Settings, asks: bool, d: seq<byte>, n: nat, reading: nat -> nat,
                                 lo: nat, hi: nat)
    reads c
    requires IsName(d)
  {
    forall m :: 0 <= m < n && m <= |d| && Boundary(d, m) ==> Unserved(c, g, asks, d[m..], reading, lo, hi)
  }

  /** The tail from `n` on has servers, and no longer tail of the name has, each at a reading between `lo` and `hi`. */
  ghost predicate Closest(c: Cache.Cache, g: Settings, asks: bool, d: seq<byte>, n: nat, reading: nat -> nat, lo: nat,
                          hi: nat)
    reads c
  {
    IsName(d) && n < |d| && Boundary(d, n) && Served(c, g, asks, d[n..], reading, lo, hi)
    && UnservedBefore(c, g, asks, d, n, reading, lo, hi)
  }

  /** The zone has servers at a moment. */
  ghost predicate ServedAt(c: Cache.Cache, g: Settings, asks: bool, d: seq<byte>, now: nat)
    reads c
  {
    g.roots(d).Some? || (asks && |d| < 255 && NsAt(c, d, now))
  }

  /** While the clock stands still, the zone is exactly the longest tail of the name that has servers. */
  lemma ClosestStill(c: Cache.Cache, g: Settings, asks: bool, d: seq<byte>, n: nat, reading: nat -> nat, lo: nat,
                     hi: nat, now: nat)
    requires Closest(c, g, asks, d, n, reading, lo, hi) && forall i :: lo <= i < hi ==> reading(i) == now
    ensures ServedAt(c, g, asks, d[n..], now)
    ensures forall m :: 0 <= m < n && Boundary(d, m) ==> !ServedAt(c, g, asks, d[m..], now)
  {
    hide IsName, Boundary, NsAt;
    forall m | 0 <= m < n && Boundary(d, m) ensures !ServedAt(c, g, asks, d[m..], now) {
      assert Unserved(c, g, asks, d[m..], reading, lo, hi);
    }
  }

  /** The servers and name servers of a level are those of the zone, configured or cached. */
  ghost predicate Uses(c: Cache.Cache, g: Settings, zone: seq<byte>, list: seq<Option<seq<byte>>>, s: seq<Addr>,
                       reading: nat -> nat, lo: nat, hi: nat)
    reads c
  {
    if g.roots(zone).Some? then s == g.roots(zone).value && list == NONE
    else s == NOBODY && exists i :: lo <= i < hi && UsesAt(c, zone, list, reading(i))
  }

  ghost predicate UsesAt(c: Cache.Cache, zone: seq<byte>, list: seq<Option<seq<byte>>>, now: nat)
    reads c
  {
    var hit := LookAt(c, KeyOf(T_NS, zone), now);
    hit.Some? && hit.value.data != [] && list == Listed(NamesOf(ReadAll(NameList, hit.value.data, 0)))
  }

  lemma UnservedNext(c: Cache.Cache, g: Settings, asks: bool, d: seq<byte>, n: nat, reading: nat -> nat, lo: nat,
                     mid: nat, hi: nat)
    requires IsName(d) && n < |d| && Boundary(d, n) && d[n] != 0 && lo <= mid <= hi
             && UnservedBefore(c, g, asks, d, n, reading, lo, mid) && Unserved(c, g, asks, d[n..], reading, mid, hi)
    ensures var e: nat := n + 1 + d[n] as int;
            e < |d| && Boundary(d, e) && UnservedBefore(c, g, asks, d, e, reading, lo, hi)
  {
    hide Unserved, IsName, Boundary;
    BoundaryNext(d, n);
    BoundaryName(d, n + 1 + d[n]);
    NoBoundaryBetween(d, n);
    Wider(c, g, asks, d, n, reading, lo, mid, hi);
    WiderOne(c, g, asks, d[n..], reading, mid, lo, hi, hi);
  }

  lemma WiderOne(c: Cache.Cache, g: Settings, asks: bool, d: seq<byte>, reading: nat -> nat, lo: nat, lo': nat, hi: nat,
                 hi': nat)
    requires Unserved(c, g, asks, d, reading, lo, hi) && lo' <= lo && hi <= hi'
    ensures Unserved(c, g, asks, d, reading, lo', hi')
  {
    hide NsAt;
  }

  lemma Wider(c: Cache.Cache, g: Settings, asks: bool, d: seq<byte>, n: nat, reading: nat -> nat, lo: nat, mid: nat,
              hi: nat)
    requires IsName(d) && lo <= mid <= hi && UnservedBefore(c, g, asks, d, n, reading, lo, mid)
    ensures UnservedBefore(c, g, asks, d, n, reading, lo, hi)
  {
    hide Unserved, IsName, Boundary;
    forall m | 0 <= m < n && m <= |d| && Boundary(d, m) ensures Unserved(c, g, asks, d[m..], reading, lo, hi) {
      WiderOne(c, g, asks, d[m..], reading, lo, lo, mid, hi);
    }
  }

  // ----- lists of names and addresses

  /** At most sixteen names are kept. */
  ghost function Listed(names: seq<seq<byte>>): (list: seq<Option<seq<byte>>>)
    ensures |list| == 16 && forall i :: 0 <= i < 16 ==> list[i] == if i < |names| then Some(names[i]) else None
  {
    seq(16, i requires 0 <= i < 16 => if i < |names| then Some(names[i]) else None)
  }

  lemma ListedNext(names: seq<seq<byte>>, t: seq<byte>)
    ensures Listed(names + [t]) == if |names| < 16 then Listed(names)[|names| := Some(t)] else Listed(names)
  {
  }

  lemma ListedNone()
    ensures Listed([]) == NONE
  {
  }

  /** The names of a list of records with one name each. */
  ghost function NamesOf(list: seq<seq<Item>>): (names: seq<seq<byte>>)
    ensures |names| == |list|
  {
    seq(|list|, i requires 0 <= i < |list| =>
        if list[i] != [] && list[i][0].Domain? then list[i][0].d else [])
  }

  function Added(s: seq<Addr>, addr: Addr, wanted: bool): (s': seq<Addr>)
    ensures |s'| == |s|
  {
    if s == [] || !wanted then s
    else if s[0] == NOWHERE then [addr] + s[1..]
    else [s[0]] + Added(s[1..], addr, wanted)
  }

  /** Lines 311-325 and 328-338. */
  method AddOnce(s: seq<Addr>, addr: Addr, wanted: bool) returns (s': seq<Addr>)
    ensures s' == Added(s, addr, wanted)
  {
    s' := s;
    if !wanted { return; }
    var k := 0;
    while k < |s|
      invariant k <= |s| && s' == s && Added(s, addr, true) == s[..k] + Added(s[k..], addr, true)
    {
      if s[k] == NOWHERE {
        s' := s[k := addr];
        assert s' == s[..k] + ([addr] + s[k..][1..]);
        return;
      }
      assert s[..k] + ([s[k]] + Added(s[k + 1..], addr, true)) == s[..k + 1] + Added(s[k + 1..], addr, true);
      assert s[k..][1..] == s[k + 1..];
      k := k + 1;
    }
    assert s[..|s|] + [] == s;
  }

  const LOCALHOST: seq<byte> := [9, 108, 111, 99, 97, 108, 104, 111, 115, 116, 0]
  const LOOPBACK: seq<byte> := [1, 49, 1, 48, 1, 48, 3, 49, 50, 55, 7, 105, 110, 45, 97, 100, 100, 114, 4, 97, 114,
                                112, 97, 0]
  const V4: seq<byte> := [0, 0, 0, 0, 0, 0, 0, 0, 0, 0, 255, 255]

  lemma LocalhostName()
    ensures IsName(LOCALHOST)
  {
    assert LOCALHOST[10..] == [0];
  }

  lemma AtStart(d: seq<byte>)
    requires IsName(d)
    ensures |d| > 0 && Boundary(d, 0)
  {
  }
  ghost predicate Names0(name: seq<Option<seq<byte>>>) { |name| == 5 && NameOk(name[0]) }
}
