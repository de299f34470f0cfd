/**
The recursive resolver (`doit` and its callers in `dq/query.c`) as a state machine over arbitrary
packets and failures, with the cache of `Cache`. A level is a name to be resolved; the levels above
0 look for the addresses of name servers. `control` is the place in the name where the zone of the
servers being asked starts. Whatever a reply says, some packet from servers of the right zone said.
*/
module Resolver {
  import opened Bits
  import opened Names
  import opened Packet
  import opened Message
  import opened RecordOrder
  import opened RecordSort
  import opened PacketScan
  import opened RecordData
  import opened Builder = Response
  import opened Reply
  import opened Provenance
  import Cache
  import opened Zones
  import opened Digest
  import opened Wrappers

  // ----- labels

  /** Where `doit` goes next. */
  datatype Label = NEWNAME | HAVENS | LOWERLEVEL | HAVEPACKET | CNAME(cname: seq<byte>, ttl: u32) | NXDOMAIN | SERVFAIL
                 | DIE | ANSWERED | SENT
  {
    function Order(): nat
    {
      match this
      case HAVEPACKET => 6
      case NEWNAME => 5
      case CNAME(_, _) => 6
      case HAVENS => 4
      case NXDOMAIN => 3
      case SERVFAIL => 3
      case LOWERLEVEL => 2
      case _ => 0
    }

    /** Labels that count the loop up, lead to one that does, or end. */
    function Ahead(): nat { if HAVENS? || LOWERLEVEL? || NXDOMAIN? || SERVFAIL? then 0 else 1 }
  }

  /** Why a call of `doit` was made: `query_start`, a packet from one of the servers, or no answer from any. */
  datatype Event = Started | Arrived(buf: seq<byte>, server: nat) | Failed

  /**
  The response is a reply: the chain of aliases and the records `said`, every one of them told by a packet from
  servers of a zone its owner is in, or local.
  */
  ghost predicate Answer(r: Response, chain: seq<seq<byte>>, ttls: seq<u32>, said: seq<Said>, ask: seq<byte>,
                         heard: seq<Heard>, g: Settings)
    reads r, r.buf
  {
    |chain| == |ttls| + 1 && Replying(r, chain, ttls, said) && r.ask == ask && LinksTold(heard, chain)
      && AllGenuine(g, heard, said)
  }

  /** Since loop `l0` at level `v0` there is progress, or there will be before anything is sent. */
  ghost predicate Made(at: Label, loop: nat, level: nat, l0: nat, v0: nat)
  {
    loop > l0 || (loop == l0
                  && (level < v0 || at.NEWNAME? || (level <= v0 && (at.SERVFAIL? || at.NXDOMAIN? || at.LOWERLEVEL?))))
  }

  /** A step leads on in the order of loop, level and label. */
  predicate Falls(loop: nat, level: nat, at: Label, loop': nat, level': nat, next: Label)
  {
    || loop' + next.Ahead() > loop + at.Ahead()
    || (loop' + next.Ahead() == loop + at.Ahead()
        && (level' < level || (level' == level && next.Order() < at.Order())))
  }

  /** Where a label leads to, and what that does to loop and level. */
  predicate Turns(at: Label, loop: nat, level: nat, next: Label, loop': nat, level': nat)
  {
    match at
    case NEWNAME => loop' == loop + 1 && level' == level && !next.HAVEPACKET? && !next.SENT?
    case HAVENS =>
      loop' == loop && if next.NEWNAME? then level' == level + 1 else level' == level && next in {SERVFAIL, SENT, DIE}
    case LOWERLEVEL => loop' == loop && level' == level - 1 && next.HAVENS?
    case CNAME(_, _) => loop' == loop && level' == level && next in {NEWNAME, DIE}
    case _ => loop' == loop && level' == level && if level > 0 then next.LOWERLEVEL? else next in {ANSWERED, DIE}
  }

  lemma Onward(at: Label, loop: nat, level: nat, next: Label, loop': nat, level': nat, l0: nat, v0: nat)
    requires at.Order() > 0 && !at.HAVEPACKET? && Made(at, loop, level, l0, v0)
             && Turns(at, loop, level, next, loop', level')
    ensures next.ANSWERED? || next.DIE? || Made(next, loop', level', l0, v0)
    ensures Falls(loop, level, at, loop', level', next)
  {
  }

  class Query {
    var loop: nat
    var level: nat
    var name: seq<Option<seq<byte>>>
    var control: seq<nat>
    var ns: seq<seq<Option<seq<byte>>>>
    var servers: seq<seq<Addr>>
    var ipv6: seq<bool>
    var alias: seq<Option<seq<byte>>>
    var aliasttl: seq<u32>
    var qtype: seq<byte>
    var qclass: seq<byte>
    const response: Response
    const cache: Cache.Cache
    const clock: Clock
    const settings: Settings
    const forwardonly: bool
    const minttl: u32
    ghost var aliases: nat
    ghost var asked: seq<byte>
    ghost var heard: seq<Heard>
    ghost var stored: seq<Stored>
    ghost var said: seq<Said>

    /** The fields have their sizes, and every packet heard came from a server of its zone. */
    ghost predicate Sized()
      reads this
    {
      && NsOk(ns) && ServersOk(servers) && |ipv6| == 5 && |control| == 5 && |aliasttl| == 16 && |qtype| == 2
      && |qclass| == 2 && minttl <= 300 && HeardOk(settings, heard)
    }

    /** The cache and the response, which all queries share, are in order. */
    ghost predicate Shape()
      reads this, response, cache, cache.x
    {
      Sized() && response.Sane() && CacheOk(cache, heard, stored) && cache.x != response.buf
    }

    /**
    The names are set up to the level, the zones and servers below it, and the aliases lead from the name asked to
    the name of level 0, as the packets heard said.
    */
    ghost predicate Named()
      reads this
    {
      && loop < 500 && level < 5 && Stack(name, control, level)
      && AliasesOk(alias, aliasttl, aliases) && Names0(name)
      && asked == AliasChain(alias, aliases, name[0].value)[0]
      && LinksTold(heard, AliasChain(alias, aliases, name[0].value))
      && LevelsOk(settings, heard, name, control, ns, servers, level)
    }

    ghost predicate Inv()
      reads this, response, cache, cache.x
    {
      Shape() && Named()
    }

    /** The zone of the level itself is a tail of its name, and its servers are those of the zone. */
    ghost predicate Zoned()
      reads this
    {
      && level < 5 && |name| == 5 && |control| == 5 && |ns| == 5 && |servers| == 5
      && InControl(name[level], control[level])
      && LevelOk(settings, heard, TailOf(name[level], control[level]), ns[level], servers[level])
    }

    ghost predicate Ready()
      reads this, response, cache, cache.x
    {
      Inv() && Zoned()
    }

    ghost function Zone(): seq<byte>
      reads this
      requires |name| == 5 && |control| == 5 && level < 5 && InControl(name[level], control[level])
    {
      name[level].value[control[level]..]
    }

    ghost function Chain(): seq<seq<byte>>
      reads this
      requires AliasesOk(alias, aliasttl, aliases) && |name| == 5 && name[0].Some?
    {
      AliasChain(alias, aliases, name[0].value)
    }

    /** The type asked about at the current level. */
    function DType(): seq<byte>
      reads this
      requires level < |ipv6|
    {
      if level > 0 then (if ipv6[level] then T_AAAA else T_A) else qtype
    }

    /**
    The response holds the reply to what was asked: the chain of aliases, then the records `said`, all of them
    genuine.
    */
    ghost predicate Answered()
      reads this, response, response.buf
    {
      && AliasesOk(alias, aliasttl, aliases) && |name| == 5 && name[0].Some?
      && Replying(response, Chain(), AliasTtls(aliasttl, aliases, response.hidettl), said)
      && response.ask == qtype + qclass && AllGenuine(settings, heard, said)
    }

    /** A query that shares the cache and the clock with those that heard and stored before it. */
    constructor (r: Response, c: Cache.Cache, k: Clock, g: Settings, forward: bool, minimum: u32,
                 ghost before: seq<Heard>, ghost kept: seq<Stored>)
      requires r.Sane() && minimum <= 300 && CacheOk(c, before, kept) && c.x != r.buf && HeardOk(g, before)
      ensures Shape() && response == r && cache == c && clock == k && settings == g && forwardonly == forward
              && minttl == minimum && heard == before && stored == kept
    {
      hide CacheOk, HeardOk;
      loop, level := 0, 0;
      name, control, ipv6 := [None, None, None, None, None], [0, 0, 0, 0, 0], [false, false, false, false, false];
      ns, servers := [NONE, NONE, NONE, NONE, NONE], [NOBODY, NOBODY, NOBODY, NOBODY, NOBODY];
      alias, aliasttl := NONE, [0, 0, 0, 0, 0, 0, 0, 0, 0, 0, 0, 0, 0, 0, 0, 0];
      qtype, qclass := [0, 0], [0, 0];
      response, cache, clock, settings, forwardonly, minttl := r, c, k, g, forward, minimum;
      aliases, asked, heard, stored, said := 0, [], before, kept, [];
    }

    /** What is stored of the last packet heard, when the clock reads `at`. */
    ghost function Put(typ: seq<byte>, d: seq<byte>, data: seq<byte>, ttl: u32, flag: bool, items: seq<seq<Item>>,
                       at: nat): Stored
      reads this
      requires heard != []
    {
      Stored(|heard| - 1, typ, d, data, ttl, flag, items, at)
    }

    /**
    `cachegeneric`, lines 91-104: only owners of at most 255 bytes are stored; the entry is then the newest of the
    cache, and a lookup finds it.
    */
    method Store(typ: seq<byte>, d: seq<byte>, data: seq<byte>, ttl: u32, flag: bool, ghost items: seq<seq<Item>>)
      requires CacheOk(cache, heard, stored) && heard != [] && IsName(d)
      requires |d| <= 255 ==> StoredOk(heard, Put(typ, d, data, ttl, flag, items, 0))
      modifies `stored, cache, cache.x, clock
      ensures CacheOk(cache, heard, stored) && old(clock.n) <= clock.n
      ensures stored == old(stored) + if |d| <= 255 then [Put(typ, d, data, ttl, flag, items,
                                                             clock.reading(old(clock.n)))] else []
      ensures |d| <= 255 ==> clock.n == old(clock.n) + 1 && Newest(cache, stored)
    {
      hide CacheOk, StoredOk, IsName, Newest;
      if |d| > 255 { return; }
      ghost var put := Keep(cache, clock, typ + Lower(d), heard, stored, Put(typ, d, data, ttl, flag, items, 0), data,
                            ttl, flag);
      stored := stored + [put];
      NewestFound(cache, heard, stored);
    }

    /** Lines 390-391: the name is marked when no server answers, by `cachegeneric2` of lines 106-120. */
    method NoAnswer()
      requires Ready()
      modifies `stored, cache, cache.x, clock
      ensures Ready()
      ensures |name| == 5 && level < 5 && name[level].Some?
      ensures stored == old(stored) + if |name[level].value| <= 255 then
                                        [Marked(T_AXFR + Lower(name[level].value) + qtype, [], 10,
                                                clock.reading(old(clock.n)))]
                                      else []
      ensures if |name[level].value| <= 255 then Newest(cache, stored) && clock.n == old(clock.n) + 1
              else clock.n == old(clock.n)
    {
      hide CacheOk, NsOk, Stack, InControl, LinksTold, LevelsOk, LevelOk, HeardOk, IsName, Newest;
      StackTop(name, control, level);
      var d := name[level].value;
      if |d| > 255 { return; }
      var key := T_AXFR + Lower(d) + qtype;
      assert key[..2] == T_AXFR;
      ghost var put := Mark(cache, clock, key, [], 10, heard, stored);
      stored := stored + [put];
      NewestFound(cache, heard, stored);
    }

    /** Lines 303-339 without the keys: the address takes the first free place, twice if it has a key. */
    method AddServer(addr: Addr, twice: bool)
      requires ServersOk(servers) && LevelsOk(settings, heard, name, control, ns, servers, level) && 0 < level < 5
      requires |name| == 5 && name[level].Some? && AddressOf(settings, heard, name[level].value, addr)
      modifies `servers
      ensures ServersOk(servers) && LevelsOk(settings, heard, name, control, ns, servers, level)
      ensures servers == old(servers)[level - 1 := Added(Added(old(servers)[level - 1], addr, true), addr, twice)]
    {
      hide AddressOf, LevelsOk, Added;
      LevelsServer(settings, heard, name, control, ns, servers, level, addr, true);
      var s := AddOnce(servers[level - 1], addr, true);
      servers := servers[level - 1 := s];
      LevelsServer(settings, heard, name, control, ns, servers, level, addr, twice);
      s := AddOnce(s, addr, twice);
      servers := servers[level - 1 := s];
    }

    /** The start of a reply. */
    method StartReply() returns (ok: bool)
      requires Inv()
      modifies `said, response, response.buf
      ensures Inv()
      ensures ok ==> Answered() && LastSection(response.recs) == ANSWER && said == []
    {
      hide Replying, IsName, Stack, NsOk, CacheOk, LinksTold, LevelsOk, HeardOk;
      said := [];
      ok := Rqa(response, alias, aliasttl, name[0].value, qtype, qclass, aliases);
    }

    /** One more record of the reply. */
    method Add(d: seq<byte>, typ: seq<byte>, ttl: u32, section: nat, items: seq<Item>) returns (ok: bool)
      requires Inv() && Answered() && IsName(d) && Equal(d, name[0].value) && |typ| == 2 && ItemsOk(items)
      requires section in {ANSWER, AUTHORITY} && LastSection(response.recs) <= section
      requires Genuine(settings, heard, d, typ, items)
      modifies `said, response, response.buf
      ensures Inv()
      ensures ok ==> Answered() && LastSection(response.recs) == section
                     && said == old(said) + [Said(d, typ, Shown(response, ttl), section, items)]
      ensures response.hidettl == old(response.hidettl)
    {
      hide Replying, IsName, Stack, NsOk, CacheOk, LinksTold, LevelsOk, HeardOk, Equal, Genuine, AllGenuine;
      ok := Emit(response, d, typ, ttl, section, items, Chain(), AliasTtls(aliasttl, aliases, response.hidettl), said);
      if !ok { return; }
      ghost var x := Said(d, typ, Shown(response, ttl), section, items);
      GenuineNext(settings, heard, said, x);
      said := said + [x];
    }

    /** The loops over a cached set, such as lines 486-491: a record of the reply for each record of the set. */
    method AddCached(d: seq<byte>, typ: seq<byte>, ttl: u32, section: nat, cached: seq<byte>) returns (ok: bool)
      requires Inv() && Answered() && IsName(d) && Equal(d, name[0].value) && |typ| == 2
      requires section in {ANSWER, AUTHORITY} && LastSection(response.recs) <= section
      requires AllTold(heard, d, typ, ReadAll(LayoutOf(typ), cached, 0))
      modifies `said, response, response.buf
      ensures Inv() && response.hidettl == old(response.hidettl)
      ensures ok ==> Answered() && LastSection(response.recs) <= section
      ensures ok ==> said == old(said) + Quoted(d, typ, Shown(response, ttl), section,
                                                ReadAll(LayoutOf(typ), cached, 0))
    {
      hide Query.Inv, Query.Answered, IsName, Equal, Genuine, AllTold, LayoutOf, CutAt, ReadAll, Quoted;
      var layout := LayoutOf(typ);
      ghost var all, done: seq<seq<Item>>, t := ReadAll(layout, cached, 0), [], Shown(response, ttl);
      var pos: nat := 0;
      QuotedStart(d, typ, t, section, all);
      while true
        invariant Inv() && Answered() && LastSection(response.recs) <= section && pos <= |cached| + 1
        invariant all == done + ReadAll(layout, cached, pos)
        invariant said == old(said) + Quoted(d, typ, t, section, done) && response.hidettl == old(response.hidettl)
        decreases |cached| + 1 - pos
      {
        var c := NextCached(layout, cached, pos);
        ReadStep(layout, cached, pos);
        if c.Bad? { return false; }
        if c.End? {
          assert all == done;
          return true;
        }
        ToldStep(settings, heard, d, typ, all, done, c.items, ReadAll(layout, cached, c.next));
        ok := Add(d, typ, ttl, section, c.items);
        if !ok { return; }
        QuotedNext(d, typ, t, section, done, c.items);
        done := done + [c.items];
        pos := c.next;
      }
    }

    /** LOWERLEVEL, lines 776-781. */
    method LowerLevel()
      requires Inv() && level > 0
      modifies `name, `ns, `level
      ensures Ready() && level == old(level) - 1 && forall i :: 0 <= i <= level ==> name[i] == old(name)[i]
    {
      hide IsName, CacheOk, LinksTold, LevelsOk, LevelOk, HeardOk;
      LevelsDown(settings, heard, name, control, ns, servers, level);
      name := name[level := None];
      ns := ns[level := NONE];
      level := level - 1;
    }

    /** CNAME, lines 1053-1064: at level 0 the name becomes the newest alias. */
    method DoCname(cname: seq<byte>, ttl: u32) returns (next: Label)
      requires Inv() && IsName(cname) && Told(heard, name[level].value, T_CNAME, [Domain(cname)])
      modifies `name, `alias, `aliasttl, `aliases
      ensures Shape() && next in {NEWNAME, DIE}
      ensures next.NEWNAME? ==> Inv() && name == old(name)[level := Some(cname)]
                                && aliases == old(aliases) + if level == 0 then 1 else 0
      ensures next.NEWNAME? && level == 0 ==> Chain() == old(Chain()) + [cname] && alias[0] == old(name)[0]
                                              && aliasttl[0] == ttl
    {
      hide IsName, CacheOk, LinksTold, LevelsOk, HeardOk, NsOk, Told, AliasChain;
      if level == 0 {
        if alias[15].Some? { return DIE; }
        PushAlias(heard, alias, aliasttl, aliases, name[0].value, cname, ttl);
        alias := [name[0]] + alias[..15];
        aliasttl := [ttl] + aliasttl[..15];
        aliases := aliases + 1;
      }
      var ok := Succeeds();
      if !ok { return DIE; }
      LevelsAlias(settings, heard, name, control, ns, servers, level, cname);
      name := name[level := Some(cname)];
      next := NEWNAME;
    }

    /** HAVENS, lines 730-773: the next name server to look up, or the question is sent. */
    method HaveNs() returns (next: Label)
      requires Ready()
      modifies `name, `ns, `level, `ipv6, `stored, cache, cache.x, clock
      ensures Goes(next) && next in {NEWNAME, SERVFAIL, SENT, DIE} && (!next.NEWNAME? ==> level == old(level))
      ensures Marks(old(stored), stored, clock.reading, old(clock.n), clock.n)
      ensures next.NEWNAME?
              ==> Inv() && level == old(level) + 1 && forall i :: 0 <= i < level ==> name[i] == old(name)[i]
      ensures next.SERVFAIL? || next.SENT? ==> Ready() && level == old(level) && name == old(name)
      ensures |servers| == 5 && level < 5 && |servers[level]| == 16
      ensures next.SENT? ==> exists j :: 0 <= j < 16 && servers[level][j] != NOWHERE
      ensures next.SERVFAIL? ==> forall j :: 0 <= j < 16 ==> servers[level][j] == NOWHERE
      ensures |old(ns)| == 5 && old(level) < 5 && |old(ns)[old(level)]| == 16
      ensures old(level) < 4 && (exists j :: 0 <= j < 16 && old(ns)[old(level)][j].Some?) ==> next in {NEWNAME, DIE}
      ensures old(level) == 4 || (forall j :: 0 <= j < 16 ==> old(ns)[old(level)][j].None?) ==> !next.NEWNAME?
    {
      hide Query.Ready, Query.Inv, Query.Goes, Marks;
      ReadyParts();
      NoMarks(stored, clock.reading, clock.n);
      var found;
      found, next := FirstNs();
      if found { return; }
      ReadyParts();
      var j := 0;
      while j < 16 && servers[level][j] == NOWHERE
        invariant 0 <= j <= 16 && forall i :: 0 <= i < j ==> servers[level][i] == NOWHERE
      {
        j := j + 1;
      }
      if j == 16 {
        InvGoes();
        return SERVFAIL;
      }
      SharedSecrets();
      ReadyParts();
      Sends(j);
      var ok := Succeeds();
      return if ok then SENT else DIE;
    }

    /** Lines 730-740. */
    method FirstNs() returns (found: bool, next: Label)
      requires Ready()
      modifies `name, `ns, `level, `ipv6
      ensures if found then Goes(next) && next in {NEWNAME, DIE} && old(level) < 4 else Ready() && level == old(level)
      ensures !found || next.DIE? ==> level == old(level) && name == old(name)
      ensures found && next.NEWNAME?
              ==> Inv() && level == old(level) + 1 && forall i :: 0 <= i < level ==> name[i] == old(name)[i]
      ensures |old(ns)| == 5 && old(level) < 5 && |old(ns)[old(level)]| == 16 && |name| == 5 && |old(name)| == 5
      ensures old(level) < 4 ==> (found <==> exists j :: 0 <= j < 16 && old(ns)[old(level)][j].Some?)
      ensures |servers| == 5 && level < 5 && |servers[level]| == 16
    {
      hide Query.Ready, Query.Inv, Query.Goes;
      ReadyParts();
      found, next := false, DIE;
      var j := 0;
      while j < 16
        invariant 0 <= j <= 16 && Ready() && level == old(level) && name == old(name) && ipv6 == old(ipv6)
        invariant |ns| == 5 && |ns[level]| == 16
        invariant level < 4 ==> ns == old(ns) && forall i :: 0 <= i < j ==> ns[level][i].None?
      {
        if ns[level][j].Some? {
          if level + 1 < 5 {
            var ok := Succeeds();
            ReadyParts();
            if !ok { return true, DIE; }
            next := Descend(j);
            InvGoes();
            AtLevel();
            return true, next;
          }
          ForgetNs(j);
        }
        j := j + 1;
      }
      ReadyParts();
    }

    lemma Sends(j: nat)
      requires Ready() && j < 16 && servers[level][j] != NOWHERE
      ensures Goes(SENT)
    {
      hide CacheOk, NsOk, Stack, LinksTold, LevelsOk, LevelOk, HeardOk, InControl;
    }

    /** Line 739. */
    method ForgetNs(j: nat)
      requires Ready() && j < 16
      modifies `ns
      ensures Ready() && |ns| == 5 && |ns[level]| == 16
      ensures |old(ns)| == 5 && level < 5 && |old(ns)[level]| == 16 && ns == old(ns)[level := old(ns)[level][j := None]]
    {
      hide IsName, CacheOk, LinksTold, LevelsOk, LevelServed, NsList, HeardOk, Boundary;
      NsDrop(heard, TailOf(name[level], control[level]), ns[level], j);
      LevelsSame(settings, heard, name, control, ns, servers, name, control, ns[level := ns[level][j := None]], servers,
                 level, level);
      ns := ns[level := ns[level][j := None]];
    }

    /**
    Lines 749-766: for a server with a key the secret shared with it is looked up, and put into the cache if it is not
    there. Which servers have keys, and the keys and secrets themselves, are outside events.
    */
    method SharedSecrets()
      requires Ready()
      modifies `stored, cache, cache.x, clock
      ensures Ready() && Marks(old(stored), stored, clock.reading, old(clock.n), clock.n)
    {
      hide IsName, CacheOk, LinksTold, LevelsOk, LevelOk, HeardOk, NsOk, Stack, InControl, Marks;
      NoMarks(stored, clock.reading, clock.n);
      var j := 0;
      while j < 16
        invariant j <= 16 && Ready() && |servers| == 5 && |servers[level]| == 16
        invariant Marks(old(stored), stored, clock.reading, old(clock.n), clock.n)
      {
        var keyed := Succeeds();
        if servers[level][j] != NOWHERE && keyed {
          ghost var was, mid := stored, clock.n;
          SharedSecret();
          MarksMarks(old(stored), was, stored, clock.reading, old(clock.n), mid, clock.n);
        }
        j := j + 1;
      }
    }

    /** Lines 755-763. */
    method SharedSecret()
      requires Ready()
      modifies `stored, cache, cache.x, clock
      ensures Ready() && Marks(old(stored), stored, clock.reading, old(clock.n), clock.n)
    {
      hide IsName, CacheOk, LinksTold, LevelsOk, LevelOk, HeardOk, NsOk, Stack, InControl, LookAt, Matches, Marks;
      var key: seq<byte> := *;
      var secret: seq<byte> := *;
      key := T_AXFR + key;
      assert key[..2] == T_AXFR;
      ghost var k;
      var hit;
      hit, k := Look(cache, clock, key, heard, stored);
      if hit.Some? && |hit.value.data| == 32 {
        NoMarksSince(stored, clock.reading, old(clock.n), clock.n);
        return;
      }
      ghost var put := Mark(cache, clock, key, secret, 655360, heard, stored);
      stored := stored + [put];
      OneMark(old(stored), stored, clock.reading, old(clock.n) + 1, clock.n);
      MarksEarlier(old(stored), stored, clock.reading, old(clock.n) + 1, old(clock.n), clock.n);
    }

    /** Lines 734-738. */
    method Descend(j: nat) returns (next: Label)
      requires Ready() && level + 1 < 5 && |ns| == 5 && |ns[level]| == 16 && j < 16 && ns[level][j].Some?
      modifies `name, `ns, `level, `ipv6
      ensures next == NEWNAME && Inv() && level == old(level) + 1 && name == old(name)[level := old(ns)[old(level)][j]]
    {
      hide IsName, CacheOk, LinksTold, LevelsOk, LevelServed, HeardOk, Told, Boundary;
      assert NsName(heard, TailOf(name[level], control[level]), ns[level][j].value);
      LevelsUp(settings, heard, name, control, ns, servers, level, j);
      name := name[level + 1 := ns[level][j]];
      ns := ns[level := ns[level][j := None]];
      level := level + 1;
      ipv6 := ipv6[level := false];
      next := NEWNAME;
    }

    /** Whether the cache is asked for servers of a zone. */
    predicate Asks()
      reads this
    {
      !forwardonly && level < 2
    }

    /** Lines 690-727: the closest zone above the name whose servers are configured or cached. */
    method FindServers() returns (next: Label)
      requires Inv()
      modifies `servers, `ns, `control, clock
      ensures Shape() && next in {HAVENS, DIE} && old(clock.n) <= clock.n
      ensures next.HAVENS? ==> Ready() && Located(old(clock.n))
    {
      hide Query.Inv, Query.Ready, IsName, Boundary, Served, Unserved, Uses;
      AtLevel();
      var name0 := name[level].value;
      var c: nat := 0;
      AtStart(name0);
      while true
        invariant Inv() && level < 5 && |name| == 5 && name[level] == Some(name0) && IsName(name0)
        invariant c < |name0| && Boundary(name0, c) && old(clock.n) <= clock.n
        invariant UnservedBefore(cache, settings, Asks(), name0, c, clock.reading, old(clock.n), clock.n)
        decreases |name0| - c
      {
        ghost var mid := clock.n;
        var done;
        done, next := TryZone(name0[c..], c);
        if done {
          if next.HAVENS? { LocatedHere(name0, c, old(clock.n), mid); }
          InvShape();
          return;
        }
        if name0[c] == 0 {
          InvShape();
          return DIE;
        }
        UnservedNext(cache, settings, Asks(), name0, c, clock.reading, old(clock.n), mid, clock.n);
        var e: nat := c + 1 + (name0[c] as int);
        c := e;
      }
    }

    /**
    The zone of the level is the closest one above its name with servers, and its servers and name servers are those
    configured or cached, at readings of the clock since `lo`.
    */
    ghost predicate Located(lo: nat)
      reads this, cache, clock
    {
      && level < 5 && |name| == |control| == |ns| == |servers| == 5 && name[level].Some?
      && lo <= clock.n
      && Closest(cache, settings, Asks(), name[level].value, control[level], clock.reading, lo, clock.n)
      && Uses(cache, settings, TailOf(name[level], control[level]), ns[level], servers[level], clock.reading, lo,
              clock.n)
    }

    lemma LocatedHere(name0: seq<byte>, c: nat, lo: nat, mid: nat)
      requires level < 5 && |name| == |control| == |ns| == |servers| == 5 && name[level] == Some(name0)
      requires IsName(name0) && c < |name0| && Boundary(name0, c) && lo <= mid <= clock.n && control[level] == c
      requires UnservedBefore(cache, settings, Asks(), name0, c, clock.reading, lo, mid)
      requires Served(cache, settings, Asks(), name0[c..], clock.reading, mid, clock.n)
      requires Uses(cache, settings, name0[c..], ns[level], servers[level], clock.reading, mid, clock.n)
      ensures Located(lo)
    {
      hide IsName, Boundary, UnservedBefore, NsAt, UsesAt;
      Wider(cache, settings, Asks(), name0, c, clock.reading, lo, mid, clock.n);
    }

    /** Lines 691-722: the zone `d`, the tail of the name from `c` on. */
    method TryZone(d: seq<byte>, c: nat) returns (done: bool, next: Label)
      requires Inv() && InControl(name[level], c) && d == TailOf(name[level], c)
      modifies `servers, `ns, `control, clock
      ensures Inv() && next in {HAVENS, DIE} && old(clock.n) <= clock.n && |control| == |ns| == |servers| == 5
      ensures done && next.HAVENS?
              ==> Ready() && control[level] == c
                  && Served(cache, settings, Asks(), d, clock.reading, old(clock.n), clock.n)
                  && Uses(cache, settings, d, ns[level], servers[level], clock.reading, old(clock.n), clock.n)
      ensures !done ==> control == old(control)
                        && Unserved(cache, settings, Asks(), d, clock.reading, old(clock.n), clock.n)
    {
      hide Query.Inv, Query.Ready, InControl, LevelServed, NsAt, UsesAt, AllTold;
      AtLevel();
      done, next := true, HAVENS;
      var s := settings.roots(d);
      if s.Some? {
        RootsServed(settings, heard, d);
        Clear(s.value, c);
        return;
      }
      if !forwardonly && level < 2 && |d| < 255 {
        var hit := CachedNs(d);
        if hit.Some? && hit.value.data != [] {
          assert NsAt(cache, d, clock.reading(old(clock.n)));
          var ok := UseCached(d, hit.value.data, c);
          if ok { UsesThis(d, hit, old(clock.n)); }
          return true, if ok then HAVENS else DIE;
        }
        assert !NsAt(cache, d, clock.reading(old(clock.n)));
      }
      done := false;
    }

    lemma UsesThis(d: seq<byte>, hit: Option<Found>, n: nat)
      requires level < 5 && |ns| == 5 && hit == LookAt(cache, KeyOf(T_NS, d), clock.reading(n))
      requires hit.Some? && hit.value.data != []
      requires ns[level] == Listed(NamesOf(ReadAll(NameList, hit.value.data, 0)))
      ensures UsesAt(cache, d, ns[level], clock.reading(n))
    {
    }

    /** Lines 700-704. */
    method CachedNs(d: seq<byte>) returns (hit: Option<Found>)
      requires Inv()
      modifies clock
      ensures Inv() && clock.n == old(clock.n) + 1 && hit == LookAt(cache, KeyOf(T_NS, d), clock.reading(old(clock.n)))
      ensures hit.Some? ==> AllTold(heard, d, T_NS, ReadAll(NameList, hit.value.data, 0))
      ensures (hit.Some? && hit.value.data != []) <==> NsAt(cache, d, clock.reading(old(clock.n)))
    {
      hide Query.Named, Query.Sized, CacheOk, Told, AllTold, ReadAll, LookAt;
      ghost var k;
      hit, k := KnownSet(d, T_NS);
    }

    /** Lines 705-720: the cached name servers of the zone become those of the level. */
    method UseCached(d: seq<byte>, cached: seq<byte>, c: nat) returns (ok: bool)
      requires Inv() && InControl(name[level], c) && d == TailOf(name[level], c)
      requires AllTold(heard, d, T_NS, ReadAll(NameList, cached, 0))
      modifies `servers, `ns, `control
      ensures Ready() && Inv() && |control| == |ns| == |servers| == 5 && control == old(control)[level := c]
      ensures servers[level] == NOBODY && (ok ==> ns[level] == Listed(NamesOf(ReadAll(NameList, cached, 0))))
    {
      hide Query.Inv, Query.Ready, InControl, LevelServed, AllTold, ReadAll, Listed, NamesOf;
      AtLevel();
      NobodyServed(settings, heard, d);
      Clear(NOBODY, c);
      var list;
      ok, list := NsFromCache(cached, heard, d);
      if ok { SetNs(list); }
    }

    /** Lines 692-695, 706-711 and 1201-1205: new servers for the level, and no name servers left to look up. */
    method Clear(s: seq<Addr>, c: nat)
      requires Inv() && InControl(name[level], c) && AddrsOk(s)
               && LevelServed(settings, heard, TailOf(name[level], c), s)
      modifies `servers, `ns, `control
      ensures Ready() && Inv() && |control| == |ns| == |servers| == 5 && |old(control)| == 5 && |old(servers)| == 5
              && |old(ns)| == 5
      ensures control == old(control)[level := c] && servers == old(servers)[level := s]
              && ns == old(ns)[level := NONE]
    {
      hide IsName, CacheOk, LinksTold, LevelsOk, LevelServed, NsList, HeardOk, Boundary;
      NsNone(heard, TailOf(name[level], c));
      LevelsSame(settings, heard, name, control, ns, servers, name, control[level := c], ns[level := NONE],
                 servers[level := s], level, level);
      servers := servers[level := s];
      ns := ns[level := NONE];
      control := control[level := c];
    }

    method SetNs(list: seq<Option<seq<byte>>>)
      requires Ready() && NsList(heard, TailOf(name[level], control[level]), list)
      modifies `ns
      ensures Ready() && Inv() && |ns| == 5 && |old(ns)| == 5 && ns == old(ns)[level := list]
    {
      hide IsName, CacheOk, LinksTold, LevelsOk, LevelServed, HeardOk, Boundary, NsName;
      LevelsSame(settings, heard, name, control, ns, servers, name, control, ns[level := list], servers, level, level);
      ns := ns[level := list];
    }

    /** What holds when `doit` goes to a label. */
    ghost predicate Goes(next: Label)
      reads this, response, response.buf, cache, cache.x
    {
      && Shape()
      && match next
         case NEWNAME => Inv()
         case NXDOMAIN => Inv()
         case SERVFAIL => Inv()
         case LOWERLEVEL => Inv() && level > 0
         case CNAME(c, _) => Inv() && IsName(c) && Told(heard, name[level].value, T_CNAME, [Domain(c)])
         case HAVENS => Ready()
         case HAVEPACKET => Ready()
         case SENT => Ready() && exists j :: 0 <= j < 16 && servers[level][j] != NOWHERE
         case ANSWERED => Inv() && Answered()
         case DIE => true
    }

    /** Lines 404-445: names that stand for themselves. */
    method LocalName(d: seq<byte>, dtype: seq<byte>) returns (done: bool, next: Label)
      requires Inv() && Some(d) == name[level] && dtype == DType()
      modifies `servers, `said, response, response.buf
      ensures Inv() && (done ==> Goes(next) && next in {LOWERLEVEL, ANSWERED, DIE})
    {
      hide Query.Answered, IsName, CacheOk, LinksTold, LevelsOk, HeardOk, Told, Equal;
      done, next := false, DIE;
      var misc := settings.globalip(d);
      if misc.Some? && TypeMatch(T_A, dtype) {
        assert AddressOf(settings, heard, d, misc.value);
        next := OwnAddress(d, T_A, misc.value, misc.value[12..]);
        return true, next;
      }
      misc := settings.globalip6(d);
      if misc.Some? && TypeMatch(T_AAAA, dtype) {
        assert AddressOf(settings, heard, d, misc.value);
        next := OwnAddress(d, T_AAAA, misc.value, misc.value);
        return true, next;
      }
      if Equal(d, LOOPBACK) {
        if level > 0 { return true, LOWERLEVEL; }
        next := Loopback(d, dtype);
        return true, next;
      }
    }

    /** Lines 435-443. */
    method Loopback(d: seq<byte>, dtype: seq<byte>) returns (next: Label)
      requires Inv() && level == 0 && Some(d) == name[0] && Equal(d, LOOPBACK)
      modifies `said, response, response.buf
      ensures Inv() && Goes(next) && next in {ANSWERED, DIE}
    {
      hide Query.Answered, IsName, CacheOk, LinksTold, LevelsOk, HeardOk, NsOk, Stack, Told;
      var ok := StartReply();
      if !ok { return DIE; }
      if TypeMatch(T_PTR, dtype) {
        LocalhostName();
        ok := Add(d, T_PTR, 655360, ANSWER, [Domain(LOCALHOST)]);
        if !ok { return DIE; }
      }
      return ANSWERED;
    }

    /** Lines 405-416 and 420-431. */
    method OwnAddress(d: seq<byte>, typ: seq<byte>, addr: Addr, data: seq<byte>) returns (next: Label)
      requires Inv() && Some(d) == name[level] && |typ| == 2 && Genuine(settings, heard, d, typ, [Octets(data)])
      requires AddressOf(settings, heard, d, addr)
      modifies `servers, `said, response, response.buf
      ensures Inv() && Goes(next) && next in {LOWERLEVEL, ANSWERED, DIE}
    {
      hide Query.Answered, IsName, CacheOk, LinksTold, LevelsOk, HeardOk, NsOk, Genuine, AddressOf;
      if level > 0 {
        AddServer(addr, false);
        return LOWERLEVEL;
      }
      var ok := StartReply();
      if !ok { return DIE; }
      ok := Add(d, typ, 655360, ANSWER, [Octets(data)]);
      return if ok then ANSWERED else DIE;
    }

    /** Lines 448-478: a name known not to exist, a server known to fail, a cached alias. */
    method CachedAlias(d: seq<byte>, dtype: seq<byte>) returns (done: bool, next: Label)
      requires Inv() && Some(d) == name[level] && dtype == DType()
      modifies `said, response, response.buf, clock
      ensures Inv() && (done ==> Goes(next) && (next.CNAME? || next in {NXDOMAIN, SERVFAIL, ANSWERED, DIE}))
      ensures old(clock.n) <= clock.n
      ensures var (failed, which) := Failure(d, dtype, old(clock.n));
              if failed then done && next == which
              else var hit := LookAt(cache, KeyOf(T_CNAME, d), clock.reading(old(clock.n) + 2));
                   (done <==> hit.Some?)
                   && (done && dtype != T_CNAME && dtype != T_ANY ==> next == CNAME(hit.value.data, hit.value.ttl))
    {
      hide Query.Inv, Query.Goes, Query.Shape, IsName, Told, LookAt, Query.Failure;
      AtLevel();
      InvGoes();
      done, next := KnownFailure(d, dtype);
      if done { return; }
      var hit := KnownAlias(d);
      if hit.Some? {
        if TypeMatch(T_CNAME, dtype) {
          next := CnameReply(d, hit.value.data, hit.value.ttl);
          return true, next;
        }
        AliasGoes(hit.value.data, hit.value.ttl);
        return true, CNAME(hit.value.data, hit.value.ttl);
      }
    }

    /** What the cache knows to fail, looked up from reading `n` of the clock on. */
    ghost function Failure(d: seq<byte>, dtype: seq<byte>, n: nat): (bool, Label)
      reads cache
    {
      var marked := LookAt(cache, T_AXFR + Lower(d) + dtype, clock.reading(n + 1));
      if LookAt(cache, KeyOf(T_ANY, d), clock.reading(n)).Some? then (true, NXDOMAIN)
      else (marked.Some? && marked.value.data == [], SERVFAIL)
    }

    lemma InvGoes()
      requires Inv()
      ensures Shape() && Goes(NEWNAME) && Goes(NXDOMAIN) && Goes(SERVFAIL) && Goes(DIE)
              && (level > 0 ==> Goes(LOWERLEVEL))
    {
      hide CacheOk, NsOk, Stack, LinksTold, LevelsOk, HeardOk, IsName;
    }

    lemma AliasGoes(cname: seq<byte>, ttl: u32)
      requires Inv() && IsName(cname) && Told(heard, name[level].value, T_CNAME, [Domain(cname)])
      ensures Goes(CNAME(cname, ttl))
    {
      hide CacheOk, NsOk, Stack, LinksTold, LevelsOk, HeardOk, IsName, Told;
    }

    /** Lines 449-461. */
    method KnownFailure(d: seq<byte>, dtype: seq<byte>) returns (known: bool, next: Label)
      requires Shape()
      modifies clock
      ensures next in {NXDOMAIN, SERVFAIL} && old(clock.n) < clock.n && (known, next) == Failure(d, dtype, old(clock.n))
      ensures !known ==> clock.n == old(clock.n) + 2
    {
      hide CacheOk, NsOk, HeardOk, LookAt;
      ghost var k;
      var hit;
      hit, k := Look(cache, clock, T_ANY + Lower(d), heard, stored);
      if hit.Some? { return true, NXDOMAIN; }
      hit, k := Look(cache, clock, T_AXFR + Lower(d) + dtype, heard, stored);
      return hit.Some? && hit.value.data == [], SERVFAIL;
    }

    /** Lines 464-465: what the cache has under the key of a CNAME record is a name some packet told. */
    method KnownAlias(d: seq<byte>) returns (hit: Option<Found>)
      requires Shape()
      modifies clock
      ensures clock.n == old(clock.n) + 1 && hit == LookAt(cache, KeyOf(T_CNAME, d), clock.reading(old(clock.n)))
      ensures hit.Some? ==> IsName(hit.value.data) && |hit.value.data| <= 255
                            && Told(heard, d, T_CNAME, [Domain(hit.value.data)])
    {
      hide Told, IsName, Matches, CacheOk, HeardOk, LookAt;
      ghost var k;
      KeyParts(T_CNAME, d);
      hit, k := Look(cache, clock, T_CNAME + Lower(d), heard, stored);
      if hit.Some? {
        OpenCache(cache, heard, stored);
        HitAlias(heard, stored, k, d, hit.value.data, hit.value.flag);
      }
    }

    /** Lines 467-471. */
    method CnameReply(d: seq<byte>, cname: seq<byte>, ttl: u32) returns (next: Label)
      requires Inv() && level == 0 && Some(d) == name[0] && IsName(cname) && Told(heard, d, T_CNAME, [Domain(cname)])
      modifies `said, response, response.buf
      ensures Inv() && Goes(next) && next in {ANSWERED, DIE}
    {
      hide Query.Answered, IsName, CacheOk, LinksTold, LevelsOk, HeardOk, NsOk, Told, Stack;
      var ok := StartReply();
      if !ok { return DIE; }
      ok := Add(name[0].value, T_CNAME, ttl, ANSWER, [Domain(cname)]);
      return if ok then ANSWERED else DIE;
    }

    /** The set of a type in the cache, and the packet's data it reads as. */
    method KnownSet(d: seq<byte>, typ: seq<byte>) returns (hit: Option<Found>, ghost k: nat)
      requires Shape() && |typ| == 2 && typ != T_AXFR
      modifies clock
      ensures clock.n == old(clock.n) + 1 && hit == LookAt(cache, KeyOf(typ, d), clock.reading(old(clock.n)))
      ensures hit.Some? ==> k < |stored| && stored[k].Stored? && stored[k].typ == typ && Equal(stored[k].owner, d)
      ensures hit.Some? ==> ReadAll(LayoutOf(typ), hit.value.data, 0) == stored[k].items
                            && AllTold(heard, d, typ, stored[k].items)
    {
      hide Told, Matches, CacheOk, HeardOk, ReadAll, LayoutOf, LookAt, ServersOk, NsOk, Cache.Cache.Valid, Backed;
      hide AllStored, KeepsNewest, Lower, IsName;
      KeyParts(typ, d);
      hit, k := Look(cache, clock, typ + Lower(d), heard, stored);
      if hit.Some? {
        OpenCache(cache, heard, stored);
        HitTold(heard, stored, k, typ, d, hit.value.data, hit.value.flag);
      }
    }

    /**
    Lines 480-555 and 666-686: a cached set answers the question exactly if there is one, with the data it was stored
    with and the lifetime it has left.
    */
    method CachedSet(d: seq<byte>, dtype: seq<byte>, typ: seq<byte>) returns (done: bool, next: Label)
      requires Inv() && Some(d) == name[level] && dtype == DType() && |typ| == 2 && typ != T_AXFR
      requires level > 0 ==> typ != dtype
      modifies `said, response, response.buf, clock
      ensures Inv() && (done ==> Goes(next) && next in {ANSWERED, DIE})
      ensures clock.n == old(clock.n) + if TypeMatch(typ, dtype) then 1 else 0
      ensures done <==> TypeMatch(typ, dtype)
                        && Suffices(LookAt(cache, KeyOf(typ, d), clock.reading(old(clock.n))), dtype)
      ensures done && next.ANSWERED? ==> exists k :: FromStored(stored, k,
                Shown(response, LookAt(cache, KeyOf(typ, d), clock.reading(old(clock.n))).value.ttl), d, typ, said)
      ensures done && next.ANSWERED? ==>
                var hit := LookAt(cache, KeyOf(typ, d), clock.reading(old(clock.n))).value;
                said == Quoted(d, typ, Shown(response, hit.ttl), ANSWER, ReadAll(LayoutOf(typ), hit.data, 0))
    {
      hide Query.Answered, IsName, CacheOk, LinksTold, LevelsOk, HeardOk, NsOk, Told, Stack, Lower, LayoutOf, ReadAll;
      hide LookAt;
      done, next := false, DIE;
      if TypeMatch(typ, dtype) {
        var hit;
        ghost var k;
        hit, k := KnownSet(d, typ);
        if hit.Some? && (hit.value.data != [] || dtype != T_ANY) {
          var ok := StartReply();
          if !ok { return true, DIE; }
          ok := AddCached(d, typ, hit.value.ttl, ANSWER, hit.value.data);
          if ok { assert FromStored(stored, k, Shown(response, hit.value.ttl), d, typ, said); }
          return true, if ok then ANSWERED else DIE;
        }
      }
    }

    /** Lines 569-575, 582-586 and 629-634: every address of a cached set becomes a server of the level below. */
    method AddServers(d: seq<byte>, typ: seq<byte>, data: seq<byte>) returns (ghost twice: bool)
      requires Inv() && level > 0 && Some(d) == name[level] && (typ == T_A || typ == T_AAAA)
      requires AllTold(heard, d, typ, ReadAll(LayoutOf(typ), data, 0))
      modifies `servers
      ensures Inv()
      ensures var n := if typ == T_A then 4 else 16;
              servers == old(servers)[level - 1 := AddedAll(old(servers)[level - 1], CachedAddrs(data, n, 0), twice)]
    {
      hide IsName, CacheOk, LinksTold, LevelsOk, HeardOk, AddressOf, NsOk, Stack, Added, AddedAll;
        hide AllTold;
      hide ReadAll, CachedAddrs;
      var t := Succeeds();
      twice := t;
      var n := if typ == T_A then 4 else 16;
      var pos: nat := 0;
      ghost var done := [];
      ghost var all, s0 := CachedAddrs(data, n, 0), servers[level - 1];
      AddedNone(s0, twice);
      assert [] + all == all;
      while pos + n <= |data|
        invariant Inv() && all == done + CachedAddrs(data, n, pos)
        invariant AllTold(heard, d, typ, ReadAll(LayoutOf(typ), data, pos))
        invariant servers == old(servers)[level - 1 := AddedAll(s0, done, twice)]
      {
        PieceTold(settings, heard, d, typ, data, pos);
        CachedAddrsStep(data, n, pos);
        var a := (if n == 4 then V4 else []) + data[pos..pos + n];
        AddServer(a, t);
        AddedNext(s0, done, a, twice);
        assert done + ([a] + CachedAddrs(data, n, pos + n)) == done + [a] + CachedAddrs(data, n, pos + n);
        done := done + [a];
        pos := pos + n;
      }
      CachedAddrsStep(data, n, pos);
      assert done + [] == done;
    }

    /** Lines 591-616 and 638-662: the addresses of the name and, if they came with the flag, its name servers. */
    method ReplyAddresses(d: seq<byte>, dtype: seq<byte>, typ: seq<byte>, e: Found) returns (done: bool, next: Label)
      requires Inv() && level == 0 && Some(d) == name[0] && (typ == T_A || typ == T_AAAA)
      requires AllTold(heard, d, typ, ReadAll(LayoutOf(typ), e.data, 0))
      modifies `said, response, response.buf, clock
      ensures old(clock.n) <= clock.n
      ensures Inv() && (done ==> Goes(next) && next in {ANSWERED, DIE})
    {
      hide Query.Answered, IsName, CacheOk, LinksTold, LevelsOk, HeardOk, NsOk, Told, Stack, Lower, LayoutOf, ReadAll;
      hide LookAt;
      var ok := StartReply();
      if !ok { return true, DIE; }
      ok := AddCached(d, typ, e.ttl, ANSWER, e.data);
      if !ok { return true, DIE; }
      if e.flag == 0 { return true, ANSWERED; }
      var hit;
      ghost var k;
      hit, k := KnownSet(d, T_NS);
      if hit.Some? && (hit.value.data != [] || dtype != T_ANY) {
        ok := AddCached(d, T_NS, hit.value.ttl, AUTHORITY, hit.value.data);
        return true, if ok then ANSWERED else DIE;
      }
      return false, DIE;
    }

    /** Lines 558-617. */
    method CachedA(d: seq<byte>, dtype: seq<byte>) returns (done: bool, next: Label)
      requires Inv() && Some(d) == name[level] && dtype == DType()
      modifies `servers, `ipv6, `said, response, response.buf, clock
      ensures old(clock.n) <= clock.n
      ensures Inv() && (done ==> Goes(next) && next in {NEWNAME, LOWERLEVEL, ANSWERED, DIE})
      ensures !done ==> ipv6 == old(ipv6)
    {
      hide Query.Answered, IsName, CacheOk, LinksTold, LevelsOk, HeardOk, NsOk, Stack, Told, LayoutOf, ReadAll, Equal;
      hide LookAt, AddedAll, CachedAddrs, Genuine, AllTold;
      done, next := false, DIE;
      if TypeMatch(T_A, dtype) {
        var hit;
        ghost var k;
        hit, k := KnownSet(d, T_A);
        if hit.Some? && hit.value.data == [] && level > 0 {
          ipv6 := ipv6[level := true];
          return true, NEWNAME;
        }
        if hit.Some? && (hit.value.data != [] || dtype != T_ANY) {
          if level > 0 {
            var _ := AddServers(d, T_A, hit.value.data);
            hit, k := KnownSet(d, T_AAAA);
            if hit.Some? && (hit.value.data != [] || dtype != T_ANY) {
              var _ := AddServers(d, T_AAAA, hit.value.data);
            }
            return true, LOWERLEVEL;
          }
          done, next := ReplyAddresses(d, dtype, T_A, hit.value);
        }
      }
    }

    /** Lines 619-664. */
    method CachedAaaa(d: seq<byte>, dtype: seq<byte>) returns (done: bool, next: Label)
      requires Inv() && Some(d) == name[level] && dtype == DType()
      modifies `servers, `said, response, response.buf, clock
      ensures old(clock.n) <= clock.n
      ensures Inv() && (done ==> Goes(next) && next in {LOWERLEVEL, ANSWERED, DIE})
    {
      hide Query.Answered, IsName, CacheOk, LinksTold, LevelsOk, HeardOk, NsOk, Stack, Told, LayoutOf, ReadAll, Equal;
      hide LookAt;
      done, next := false, DIE;
      if TypeMatch(T_AAAA, dtype) {
        var hit;
        ghost var k;
        hit, k := KnownSet(d, T_AAAA);
        if hit.Some? && hit.value.data == [] && level > 0 { return true, LOWERLEVEL; }
        if hit.Some? && (hit.value.data != [] || dtype != T_ANY) {
          if level > 0 {
            var _ := AddServers(d, T_AAAA, hit.value.data);
            return true, LOWERLEVEL;
          }
          done, next := ReplyAddresses(d, dtype, T_AAAA, hit.value);
        }
      }
    }

    /** Lines 480-686: the cached sets, type by type. */
    method CachedSets(d: seq<byte>, dtype: seq<byte>) returns (done: bool, next: Label)
      requires Inv() && Some(d) == name[level] && dtype == DType()
      modifies `servers, `ipv6, `said, response, response.buf, clock
      ensures old(clock.n) <= clock.n
      ensures Inv() && (done ==> Goes(next) && next in {NEWNAME, LOWERLEVEL, ANSWERED, DIE})
    {
      hide Query.Inv, Query.Goes, FromStored, LookAt, Suffices;
      AtLevel();
      done, next := CachedSet(d, dtype, T_NS);
      if done { return; }
      done, next := CachedSet(d, dtype, T_PTR);
      if done { return; }
      done, next := CachedSet(d, dtype, T_MX);
      if done { return; }
      done, next := CachedSet(d, dtype, T_SOA);
      if done { return; }
      done, next := CachedA(d, dtype);
      if done { return; }
      done, next := CachedAaaa(d, dtype);
      if done { return; }
      if dtype !in {T_ANY, T_AXFR, T_CNAME, T_NS, T_PTR, T_A, T_MX, T_AAAA, T_SOA} {
        done, next := CachedSet(d, dtype, dtype);
      }
    }

    lemma AtLevel()
      requires Inv()
      ensures level < 5 && |ipv6| == 5 && |qtype| == 2 && |name| == 5 && |servers| == 5 && |servers[level]| == 16
              && |ns| == 5 && |control| == 5
      ensures name[level].Some? && IsName(name[level].value)
    {
      hide CacheOk, LinksTold, LevelsOk, HeardOk, IsName;
    }

    /** NEWNAME, lines 397-727. */
    method NewName() returns (next: Label)
      requires Inv()
      modifies `loop, `ipv6, `servers, `ns, `control, `said, response, response.buf, clock
      ensures old(clock.n) <= clock.n
      ensures loop == old(loop) + 1 && (loop == 500 ==> next == DIE)
      ensures Goes(next) && !next.HAVEPACKET? && !next.SENT?
      ensures next.HAVENS? ==> Located(old(clock.n))
    {
      hide Query.Answered, IsName, CacheOk, LinksTold, LevelsOk, HeardOk, NsOk, Equal, Query.Located;
      loop := loop + 1;
      if loop == 500 { return DIE; }
      var d := name[level].value;
      var dtype := DType();
      next := Known(d, dtype);
    }

    /** Lines 404-727. */
    method Known(d: seq<byte>, dtype: seq<byte>) returns (next: Label)
      requires Inv() && Some(d) == name[level] && dtype == DType()
      modifies `ipv6, `servers, `ns, `control, `said, response, response.buf, clock
      ensures old(clock.n) <= clock.n
      ensures Goes(next) && !next.HAVEPACKET? && !next.SENT?
      ensures next.HAVENS? ==> Ready() && Located(old(clock.n))
    {
      hide Query.Inv, Query.Ready, Query.Goes, Query.Shape, Closest, Uses, Query.Failure, LookAt;
      AtLevel();
      var done;
      done, next := LocalName(d, dtype);
      if done { return; }
      if |d| <= 255 {
        done, next := CachedAlias(d, dtype);
        if done { return; }
        done, next := CachedSets(d, dtype);
        if done { return; }
      }
      ghost var lo := clock.n;
      next := FindServers();
      if next.HAVENS? {
        LocatedSince(old(clock.n), lo);
        Havens();
      } else {
        Dies();
      }
    }

    lemma LocatedSince(lo: nat, mid: nat)
      requires Located(mid) && lo <= mid
      ensures Located(lo)
    {
      hide IsName, Boundary, NsAt, UsesAt, Unserved;
      var d := name[level].value;
      forall m | 0 <= m < control[level] && m <= |d| && Boundary(d, m)
        ensures Unserved(cache, settings, Asks(), d[m..], clock.reading, lo, clock.n)
      {
        WiderOne(cache, settings, Asks(), d[m..], clock.reading, mid, lo, clock.n, clock.n);
      }
    }

    /** Lines 949-953: of several aliases the last is stored. */
    method StoreAlias(m: Heard, ps: seq<nat>, t1: seq<byte>, ttl: u32, posauthority: nat) returns (ok: bool)
      requires CacheOk(cache, heard, stored) && heard != [] && heard[|heard| - 1] == m && ps != [] && ttl <= 604800
      requires IsName(t1) && |t1| <= 255 && Suffix(t1, m.zone)
      requires forall i :: 0 <= i < |ps| ==> RecordOf(m, ps[i], t1, T_CNAME)
      modifies `stored, cache, cache.x, clock
      ensures CacheOk(cache, heard, stored) && old(clock.n) <= clock.n && (!ok ==> stored == old(stored))
      ensures ok <==> SetReads(m.buf, ps, T_CNAME, posauthority)
      ensures ok ==> stored == old(stored) + [Put(T_CNAME, t1, SetBytes(m.buf, From(ps, T_CNAME), T_CNAME,
                                                                         posauthority),
                                                  ttl, false, StoredItems(m.buf, ps, T_CNAME, posauthority),
                                                  clock.reading(old(clock.n)))]
      ensures ok ==> clock.n == old(clock.n) + 1 && Newest(cache, stored)
                     && AllRead(m.buf, From(ps, T_CNAME), T_CNAME, posauthority)
    {
      hide SetReads, HeadReads, IsName, Suffix, CacheOk, StoredOk, RecordOf, StoredItems, SetBytes, NameAt, DataAt;
      hide Newest;
      var t2;
      RecordHead(m, ps[|ps| - 1], t1, T_CNAME);
      OneReads(m.buf, ps, posauthority);
      ok, t2 := AliasTarget(m.buf, ps[|ps| - 1]);
      if ok {
        AliasStored(heard, ps, t1, t2, ttl, posauthority);
        Store(T_CNAME, t1, t2, ttl, false, StoredItems(m.buf, ps, T_CNAME, posauthority));
      }
    }

    /** Lines 968-976: a shorter lifetime in the cache, from the zone itself, is not extended. */
    method NsTtl(t1: seq<byte>, ttl: u32) returns (ttl': u32)
      requires CacheOk(cache, heard, stored)
      modifies clock
      ensures clock.n == old(clock.n) + 1
      ensures ttl' == Shorter(LookAt(cache, KeyOf(T_NS, t1), clock.reading(old(clock.n))), ttl)
    {
      hide CacheOk, LookAt;
      var hit;
      ghost var k;
      hit, k := Look(cache, clock, T_NS + Lower(t1), heard, stored);
      ttl' := if hit.Some? && hit.value.flag != 0 && hit.value.ttl < ttl then hit.value.ttl else ttl;
    }

    /** The lifetime a set is stored with, if the clock reads `now` when the cache is asked. */
    ghost function Lifetime(m: Heard, p: nat, t1: seq<byte>, typ: seq<byte>, posauthority: nat, ttl: u32, now: nat): u32
      reads cache
    {
      if typ == T_NS && posauthority <= p && Equal(t1, m.zone) then Shorter(LookAt(cache, KeyOf(T_NS, t1), now), ttl)
      else ttl
    }

    /** Lines 926-1043: a set of records in the zone that is not one of aliases is stored with its data. */
    method StoreData(m: Heard, ps: seq<nat>, t1: seq<byte>, typ: seq<byte>, ttl: u32, posauthority: nat, ns: bool)
      returns (ok: bool)
      requires CacheOk(cache, heard, stored) && heard != [] && heard[|heard| - 1] == m && IsName(m.zone)
      requires IsName(t1) && |t1| <= 255 && |typ| == 2 && ttl <= 604800 && ps != []
      requires forall i :: 0 <= i < |ps| ==> RecordOf(m, ps[i], t1, typ)
      requires InScope(settings, m, t1, typ) && typ != T_CNAME
      modifies `stored, cache, cache.x, clock
      ensures CacheOk(cache, heard, stored) && Timed(old(stored), stored, clock.reading, old(clock.n), clock.n)
      ensures ok <==> SetReads(m.buf, ps, typ, posauthority)
      ensures !ok ==> stored == old(stored)
      ensures ok ==> Filed(settings, m, |heard| - 1, ps, t1, typ, posauthority, ns, ttl, old(stored), stored)
      ensures stored != old(stored) ==> Newest(cache, stored)
      ensures Lives(old(stored), stored, old(Lifetime(m, ps[0], t1, typ, posauthority, ttl, clock.reading(clock.n))))
    {
      hide SetReads, PieceReads, HeadReads, IsName, Suffix, CacheOk, StoredOk, RecordOf, SetBytes, StoredItems, AllRead;
      hide EncodeAll, Newest, LookAt, LayoutOf, Equal;
      RecordHeads(m, ps, t1, typ);
      var life := ttl;
      if typ == T_NS && posauthority <= ps[0] && Equal(t1, m.zone) {
        life := NsTtl(t1, ttl);
      }
      EachReads(m.buf, ps, typ, posauthority);
      var saved, some;
      ok, saved, some := Collect(m.buf, ps, typ, posauthority);
      if ok && saved.Some? && (typ != T_SOA || some) {
        var flag := if typ == T_NS then Equal(t1, m.zone) else (typ == T_A || typ == T_AAAA) && ns;
        SetStored(heard, ps, t1, typ, saved.value, life, flag, posauthority);
        Store(typ, t1, saved.value, life, flag, StoredItems(m.buf, ps, typ, posauthority));
      }
    }

    /**
    Lines 922-1043: a set of records whose owner is in the zone is stored with the data the packet has, and a lookup
    right after finds it.
    */
    method StoreSet(m: Heard, ps: seq<nat>, t1: seq<byte>, typ: seq<byte>, ttl: u32, posauthority: nat, ns: bool)
      returns (ok: bool)
      requires CacheOk(cache, heard, stored) && heard != [] && heard[|heard| - 1] == m && IsName(m.zone)
      requires IsName(t1) && |t1| <= 255 && |typ| == 2 && ttl <= 604800 && ps != []
      requires forall i :: 0 <= i < |ps| ==> RecordOf(m, ps[i], t1, typ)
      modifies `stored, cache, cache.x, clock
      ensures CacheOk(cache, heard, stored) && Timed(old(stored), stored, clock.reading, old(clock.n), clock.n)
      ensures ok <==> (InScope(settings, m, t1, typ) ==> SetReads(m.buf, ps, typ, posauthority))
      ensures !ok ==> stored == old(stored)
      ensures ok ==> Filed(settings, m, |heard| - 1, ps, t1, typ, posauthority, ns, ttl, old(stored), stored)
      ensures stored != old(stored) ==> Newest(cache, stored)
      ensures Lives(old(stored), stored, old(Lifetime(m, ps[0], t1, typ, posauthority, ttl, clock.reading(clock.n))))
    {
      hide SetReads, PieceReads, HeadReads, IsName, Suffix, CacheOk, StoredOk, RecordOf, SetBytes, StoredItems, AllRead;
      hide EncodeAll, Newest, LookAt, LayoutOf, Equal;
      RecordHeads(m, ps, t1, typ);
      var found, at := FindSuffix(t1, m.zone);
      if !found { return true; }
      if !settings.same(t1, m.zone) { return true; }
      if typ == T_ANY || typ == T_AXFR { return true; }
      if typ == T_CNAME {
        ok := StoreAlias(m, ps, t1, ttl, posauthority);
        return;
      }
      ok := StoreData(m, ps, t1, typ, ttl, posauthority, ns);
    }

    /** Lines 871-901: the positions of all records, sorted. */
    method SortedRecords(buf: seq<byte>, k: nat) returns (ok: bool, r: seq<nat>, ghost ps: seq<nat>, ghost end: nat)
      requires |buf| >= 12
      ensures ok ==> Walk(buf, AnswersAt(buf), ps, end) && |ps| == k && multiset(r) == multiset(ps)
      ensures ok ==> AllReadable(buf, r) && SortedFrom(buf, r, 0)
    {
      hide Walk, SortedFrom, AllReadable, AnswersAt;
      r, ps, end := [], [], 0;
      ok := Succeeds();
      if !ok { return; }
      var a;
      ok, a, end := Positions(buf, AnswersAt(buf), k);
      if !ok { return; }
      ps := a[..];
      WalkReadable(buf, AnswersAt(buf), ps, end);
      Sort(buf, a);
      r := a[..];
    }

    /**
    Lines 871-1048: the records of the packet are sorted and stored set by set; every set of class IN is
    taken exactly once, whole, and what is stored becomes the newest part of the cache.
    */
    method StoreRecords(m: Heard, k: nat, posauthority: nat, ns: bool)
      returns (ok: bool, ghost ps: seq<nat>, ghost end: nat, ghost r: seq<nat>, ghost sets: seq<(nat, nat)>)
      requires CacheOk(cache, heard, stored) && minttl <= 300 && heard != [] && heard[|heard| - 1] == m
               && IsName(m.zone) && |m.buf| >= 12 && k == RecordCount(m.buf)
      modifies `stored, cache, cache.x, clock
      ensures CacheOk(cache, heard, stored) && KeepsNewest(cache, stored)
      ensures More(old(stored), stored, |heard| - 1, clock.reading, old(clock.n), clock.n)
      ensures ok ==> Walk(m.buf, AnswersAt(m.buf), ps, end) && |ps| == k && multiset(r) == multiset(ps)
      ensures ok ==> Taken(m.buf, r, sets, |r|)
                     && AllFiled(settings, m, |heard| - 1, r, sets, posauthority, ns, minttl, old(stored), stored)
    {
      hide IsName, CacheOk, KeepsNewest, Walk, SortedFrom, Internet, SameSet, IsSet, AllReadable, ViewAt, Taken, Filed;
      hide AllFiled, More, Timed, Newest, Lives, Filings, Equal, TtlGet, LookAt, RecordOf, IsRecord, NameAt, SkipName;
      hide Cache.Cache.Valid, Backed, AllStored, AnswersAt;
      ps, end, r, sets := [], 0, [], [];
      NoMore(stored, |heard| - 1, clock.reading, clock.n);
      OpenCache(cache, heard, stored);
      var t;
      ok, t, ps, end := SortedRecords(m.buf, k);
      r := t;
      if !ok { return; }
      var i: nat := 0;
      TakenNone(m.buf, r);
      FiledNone(settings, m, |heard| - 1, r, posauthority, ns, minttl, stored);
      while i < |t|
        invariant i <= |t| && Taken(m.buf, r, sets, i) && r == t
        invariant i < |t| && Internet(m.buf, r[i]) ==> i == 0 || !SameSet(m.buf, r[i - 1], r[i])
        invariant CacheOk(cache, heard, stored)
                  && More(old(stored), stored, |heard| - 1, clock.reading, old(clock.n), clock.n)
        invariant AllFiled(settings, m, |heard| - 1, r, sets, posauthority, ns, minttl, old(stored), stored)
      {
        var internet, t1, header, j := NextSet(m.buf, t, i);
        NextStart(m.buf, t, i, j, internet);
        if internet {
          ghost var was, then_ := stored, clock.n;
          SetRecords(m, ps, end, r, i, j, t1, header);
          ok := StoreSet(m, t[i..j], t1, header[..2], TtlGet(header[4..8], minttl), posauthority, ns);
          FiledMore(settings, m, |heard| - 1, t[i..j], t1, header, posauthority, ns, minttl, old(stored), was, stored,
                    ok, clock.reading, old(clock.n), then_, clock.n);
          if !ok {
            OpenCache(cache, heard, stored);
            return;
          }
          TakenNext(m.buf, r, sets, i, j);
          FiledNext(settings, m, |heard| - 1, r, sets, i, j, t1, header, posauthority, ns, minttl, old(stored), was,
                    stored);
          sets := sets + [(i, j)];
        } else {
          TakenSkip(m.buf, r, sets, i);
        }
        i := j;
      }
      OpenCache(cache, heard, stored);
      ok := true;
    }

    /** Lines 864-865 and 1195-1196: the server is not asked again. */
    method DropServer(server: nat)
      requires Ready() && server < 16
      modifies `servers
      ensures Ready() && servers == old(servers)[level := old(servers)[level][server := NOWHERE]]
    {
      hide IsName, CacheOk, LinksTold, LevelsOk, LevelServed, HeardOk, NsList, Boundary;
      var s := servers[level][server := NOWHERE];
      DropServed(settings, heard, TailOf(name[level], control[level]), servers[level], server);
      LevelsSame(settings, heard, name, control, ns, servers, name, control, ns, servers[level := s], level, level);
      servers := servers[level := s];
    }

    /** Lines 1097-1120: the addresses in the answers about the name become servers of the level below. */
    method ServersFromAnswers(m: Heard, start: nat, n: nat, d: seq<byte>, ghost ps: seq<nat>, ghost end: nat)
      returns (ok: bool, ghost twice: bool)
      requires Inv() && level > 0 && Some(d) == name[level]
      requires heard != [] && heard[|heard| - 1] == m && IsName(d) && Suffix(d, m.zone)
      requires Walk(m.buf, start, ps, end) && |ps| == n && forall i :: 0 <= i < n ==> IsRecord(m.buf, ps[i])
      modifies `servers
      ensures Inv()
      ensures ok ==> servers == old(servers)[level - 1 := AddedAll(old(servers)[level - 1], AnswerAddrs(m.buf, ps, d),
                                                                   twice)]
    {
      hide Query.Inv, Walk, IsRecord, Readable, IsName, Suffix, AddedAll, AnswerAddrs, AddrAt;
      AtLevel();
      var t := Succeeds();
      twice := t;
      var pos, j := start, 0;
      ghost var s0 := servers[level - 1];
      NoAddrs(m.buf, s0, d, twice);
      assert ps[..0] == [];
      WalkEnds(m.buf, start, ps, end);
      while j < n
        invariant Inv() && j <= n && level < 5 && |servers| == 5 && pos == (if j < n then ps[j] else end)
        invariant servers == old(servers)[level - 1 := AddedAll(s0, AnswerAddrs(m.buf, ps[..j], d), twice)]
      {
        WalkNext(m.buf, start, ps, end, j);
        ghost var list := AnswerAddrs(m.buf, ps[..j], d);
        ok, pos := ServerFromRecord(m, pos, d, t);
        if !ok { return; }
        AnswerAddrsNext(m.buf, ps, j, d);
        AddedAt(s0, list, AddrAt(m.buf, ps[j], d), twice);
        j := j + 1;
      }
      assert ps[..j] == ps;
      ok := true;
    }

    /** One answer. */
    method ServerFromRecord(m: Heard, p: nat, d: seq<byte>, twice: bool) returns (ok: bool, next: nat)
      requires Inv() && level > 0 && Some(d) == name[level]
      requires heard != [] && heard[|heard| - 1] == m && IsName(d) && Suffix(d, m.zone)
      requires IsRecord(m.buf, p) && Readable(m.buf, p)
      modifies `servers
      ensures Inv() && |servers| == 5 && level < 5 && |AddrAt(m.buf, p, d)| <= 1 && |old(servers)| == 5
      ensures DataAt(m.buf, p) <= |m.buf| && (ok ==> next == NextAt(m.buf, p))
      ensures ok ==> servers == if AddrAt(m.buf, p, d) == [] then old(servers)
                                else old(servers)[level - 1 := Added(Added(old(servers)[level - 1],
                                                                           AddrAt(m.buf, p, d)[0], true),
                                                                     AddrAt(m.buf, p, d)[0], twice)]
    {
      hide IsName, CacheOk, LinksTold, LevelsOk, HeardOk, AddressOf, NsOk, Stack, Added, NameAt, ViewAt, SkipName;
      hide Suffix, IsRecord;
        var t1, header, data;
      ok, t1, header, data, next := Record(m.buf, p);
      HeaderLength(m.buf, p, header);
      if Equal(t1, d) && header[2..4] == C_IN {
        var datalen := Be16(header, 8);
        if (header[..2] == T_A && datalen == 4) || (header[..2] == T_AAAA && datalen == 16) {
          var q, misc := Copy(m.buf, data, datalen);
          if q == 0 { return false, next; }
          AnswerTold(settings, heard, m, p, d, header[..2], misc);
          var a := (if datalen == 4 then V4 else []) + misc;
          AddrHere(m.buf, p, d, header[..2], misc);
          AddServer(a, twice);
        }
      }
      ok := true;
    }

    /**
    Lines 1126-1163 for the answers and 1165-1180 for the authority section: the records about the name, in
    order.
    */
    method CopyRecords(m: Heard, start: nat, n: nat, d: seq<byte>, dtype: seq<byte>, section: nat, ghost ps: seq<nat>,
                       ghost end: nat)
      returns (ok: bool)
      requires Inv() && Answered() && level == 0 && Some(d) == name[0]
      requires section in {ANSWER, AUTHORITY} && LastSection(response.recs) <= section
      requires heard != [] && heard[|heard| - 1] == m && IsName(d) && Suffix(d, m.zone)
      requires Walk(m.buf, start, ps, end) && |ps| == n && forall i :: 0 <= i < n ==> IsRecord(m.buf, ps[i])
      modifies `said, response, response.buf
      ensures Inv() && response.hidettl == old(response.hidettl)
      ensures ok ==> Answered() && LastSection(response.recs) <= section
      ensures minttl <= 300 && AllWalked(m.buf, ps)
      ensures ok ==> AllCopied(m.buf, ps, d, dtype)
                     && said == old(said) + Copied(m.buf, ps, d, dtype, section, minttl, response.hidettl)
    {
      hide Query.Inv, Query.Answered, NameAt, ViewAt, SkipName, IsName, Suffix, IsRecord, Walk, Copied, Readable;
      hide AllWalked, Genuine, CopiedOne, AllCopied, CanCopy;
      MinTtl();
      WalkedAll(m.buf, start, ps, end);
      var pos, j := start, 0;
      CopiedNone(m.buf, d, dtype, section, minttl, response.hidettl);
      NoneCopied(m.buf, d, dtype);
      assert ps[..0] == [];
      WalkEnds(m.buf, start, ps, end);
      while j < n
        invariant Inv() && Answered() && j <= n && LastSection(response.recs) <= section
        invariant pos == (if j < n then ps[j] else end) && response.hidettl == old(response.hidettl)
        invariant AllWalked(m.buf, ps[..j]) && AllCopied(m.buf, ps[..j], d, dtype)
                  && said == old(said) + Copied(m.buf, ps[..j], d, dtype, section, minttl, response.hidettl)
      {
        WalkNext(m.buf, start, ps, end, j);
        ok, pos := CopyRecord(m, pos, d, dtype, section);
        if !ok { return; }
        CopiedNext(m.buf, ps, j, d, dtype, section, minttl, response.hidettl);
        AllCopiedNext(m.buf, ps, j, d, dtype);
        j := j + 1;
      }
      assert ps[..j] == ps;
      ok := true;
    }

    /** One record of the packet. */
    method CopyRecord(m: Heard, p: nat, d: seq<byte>, dtype: seq<byte>, section: nat) returns (ok: bool, next: nat)
      requires Inv() && Answered() && level == 0 && Some(d) == name[0]
      requires section in {ANSWER, AUTHORITY} && LastSection(response.recs) <= section
      requires heard != [] && heard[|heard| - 1] == m && IsName(d) && Suffix(d, m.zone) && IsRecord(m.buf, p)
               && Readable(m.buf, p)
      modifies `said, response, response.buf
      ensures Inv() && response.hidettl == old(response.hidettl) && minttl <= 300 && DataAt(m.buf, p) <= |m.buf|
      ensures ok ==> Answered() && LastSection(response.recs) <= section && next == NextAt(m.buf, p)
      ensures ok ==> CanCopy(m.buf, p, d, dtype)
                     && said == old(said) + CopiedOne(m.buf, p, d, dtype, section, minttl, response.hidettl)
    {
      hide Query.Inv, Query.Answered, NameAt, ViewAt, SkipName, IsName, Suffix, IsRecord, Genuine, Data;
      MinTtl();
      var t1, header, data;
      ok, t1, header, data, next := Record(m.buf, p);
      HeaderTtl(m.buf, p, header);
      HeaderLength(m.buf, p, header);
      if Equal(t1, d) && header[2..4] == C_IN && TypeMatch(header[..2], dtype) {
        var items;
        ok, items := RData(m.buf, data, header[..2], Be16(header, 8));
        if !ok { return; }
        CopyGenuine(settings, heard, m, p, t1, d, header[..2], items);
        ok := Add(t1, header[..2], TtlGet(header[4..8], minttl), section, items);
        if !ok { return; }
      }
      ok := true;
    }

    lemma MinTtl()
      requires Inv()
      ensures minttl <= 300
    {
    }

    /** Lines 1124-1184. */
    method ReplyFromPacket(m: Heard, rd: Reading, d: seq<byte>, dtype: seq<byte>, ghost pa: seq<nat>,
                           ghost pb: seq<nat>, ghost end: nat)
      returns (next: Label)
      requires Inv() && level == 0 && Some(d) == name[0] && heard != [] && heard[|heard| - 1] == m && IsName(d)
               && Suffix(d, m.zone)
      requires Sections(m.buf, rd, pa, pb, end)
      modifies `said, response, response.buf
      ensures Inv() && Goes(next) && next in {ANSWERED, DIE}
      ensures next.ANSWERED? ==> PacketReply(m.buf, d, dtype, minttl, response.hidettl, said)
    {
      hide Query.Inv, Query.Answered, IsName, Suffix, Walk, IsRecord, Copied, AllCopied, AllWalked, Query.Goes;
      hide Query.Shape, PacketReply, Sections;
      SectionRecords(m.buf, rd, pa, pb, end);
      var ok := StartReply();
      if !ok {
        InvGoes();
        return DIE;
      }
      ok := CopyRecords(m, rd.posanswers, rd.answers, d, dtype, ANSWER, pa, rd.posauthority);
      if !ok {
        InvGoes();
        return DIE;
      }
      ghost var first := said;
      ok := CopyRecords(m, rd.posauthority, rd.authorities, d, T_NS, AUTHORITY, pb, end);
      if !ok {
        InvGoes();
        return DIE;
      }
      assert [] + first == first;
      PacketReplyIs(m.buf, rd, pa, pb, end, d, dtype, minttl, response.hidettl, said);
      AnsweredGoes();
      return ANSWERED;
    }

    lemma AnsweredGoes()
      requires Inv() && Answered()
      ensures Goes(ANSWERED)
    {
      hide CacheOk, NsOk, Stack, LinksTold, LevelsOk, HeardOk, IsName, Query.Answered;
    }

    lemma InvShape()
      requires Inv()
      ensures Shape()
    {
    }

    /** Lines 1187-1222: a referral is followed to a zone closer to the name. */
    method Refer(m: Heard, rd: Reading, server: nat, ghost pa: seq<nat>, ghost pb: seq<nat>, ghost end: nat)
      returns (next: Label, ghost followed: bool)
      requires Ready() && server < 16 && rd.auth.referral && IsName(rd.auth.zone)
      requires Suffix(rd.auth.zone, Zone()) && !Equal(rd.auth.zone, Zone())
      requires heard != [] && heard[|heard| - 1] == m && m.zone == Zone() && Sections(m.buf, rd, pa, pb, end)
      modifies `servers, `ns, `control
      ensures next in {HAVENS, DIE} && Goes(next)
      ensures next.HAVENS? && followed ==> control[level] < old(control[level]) && Equal(Zone(), rd.auth.zone)
                                           && !forwardonly
      ensures next.HAVENS? && followed ==> control == old(control)[level := control[level]] && servers[level] == NOBODY
                                           && ns[level] == Listed(NsNames(m.buf, pb, rd.auth.zone))
      ensures next.HAVENS? && !followed ==> control == old(control) && ns == old(ns) && forwardonly
      ensures forwardonly && Suffix(name[level].value, rd.auth.zone) ==> next == HAVENS
      ensures !Suffix(name[level].value, rd.auth.zone) ==> next == DIE
    {
      hide Query.Inv, Query.Ready, Query.Goes, NsList, LevelServed, IsName, Suffix, Equal, Boundary, Sections, NsNames;
      hide Walk, IsRecord;
      followed := false;
      ReadyParts();
      Havens();
      var d := name[level].value;
      var found, at := FindSuffix(d, rd.auth.zone);
      if !found { return DIE, false; }
      if forwardonly {
        DropServer(server);
        Havens();
        return HAVENS, false;
      }
      ReferralLonger(d, control[level], rd.auth.zone, at);
      InControlAt(name[level], at);
      NobodyServed(settings, heard, TailOf(name[level], at));
      Clear(NOBODY, at);
      SectionRecords(m.buf, rd, pa, pb, end);
      var ok, list := NsFromPacket(m, rd.posauthority, rd.authorities, rd.auth.zone, heard, pb, end);
      if !ok {
        ReadyParts();
        return DIE, true;
      }
      EqualBack(TailOf(name[level], at), rd.auth.zone);
      NsEqual(heard, rd.auth.zone, TailOf(name[level], at), list);
      SetNs(list);
      Havens();
      return HAVENS, true;
    }

    /** Lines 1050-1222: what the packet, its records stored, means for the question. */
    method Decide(m: Heard, rd: Reading, server: nat, ghost pa: seq<nat>, ghost pb: seq<nat>, ghost end: nat)
      returns (next: Label, ghost followed: bool)
      requires Ready() && server < 16 && ReadingOk(rd) && Closer(rd)
      requires heard != [] && heard[|heard| - 1] == m && m.zone == Zone() && Sections(m.buf, rd, pa, pb, end)
      requires AnswersOk(m.buf, pa, name[level].value, DType(), rd.ans)
      modifies `servers, `ns, `control, `ipv6, `stored, `said, response, response.buf, cache, cache.x, clock
      ensures Goes(next) && !next.HAVEPACKET? && !next.SENT? && !next.SERVFAIL?
      ensures More(old(stored), stored, |heard| - 1, clock.reading, old(clock.n), clock.n)
      ensures if rd.ans.alias then next == CNAME(rd.ans.cname, rd.ans.ttl) else !next.CNAME?
      ensures next.NXDOMAIN? <==> !rd.ans.alias && rd.rcode == 3
      ensures stored == old(stored) + Nothing(|heard| - 1, rd, old(name[level].value), old(DType()),
                                              clock.reading(old(clock.n)))
      ensures stored != old(stored) ==> Newest(cache, stored)
      ensures next.NEWNAME? ==> level > 0 && ipv6[level] && rd.auth.soa && !rd.ans.out
      ensures Refers(rd) ==> next in {HAVENS, DIE}
      ensures next.HAVENS? ==> Refers(rd) && if followed then control[level] < old(control[level])
                                             else control == old(control)
      ensures next.ANSWERED?
              ==> PacketReply(m.buf, old(name[level].value), old(DType()), minttl, response.hidettl, said)
    {
      hide Query.Ready, Query.Inv, Query.Goes, IsName, Suffix, Boundary, Told, AnswersOk, Sections, PacketReply, More;
      hide Newest, Nothing, Negative, Equal;
      followed := false;
      ReadyParts();
      var d, dtype := name[level].value, DType();
      TailSuffix(d, control[level]);
      if rd.ans.alias {
        NoMore(stored, |heard| - 1, clock.reading, clock.n);
        AliasHeard(heard, rd, pa, pb, end, d, dtype);
        AliasGoes(rd.ans.cname, rd.ans.ttl);
        NothingHere(|heard| - 1, rd, d, dtype, clock.reading(old(clock.n)), stored);
        return CNAME(rd.ans.cname, rd.ans.ttl), false;
      }
      StoreNegative(rd, d, dtype);
      next, followed := Interpret(m, rd, server, d, dtype, pa, pb, end);
    }

    /** A referral is strictly inside the zone. */
    ghost predicate Closer(rd: Reading)
      reads this
      requires ReadingOk(rd)
      requires level < 5 && |name| == 5 && |control| == 5 && InControl(name[level], control[level])
    {
      Refers(rd) ==> Suffix(rd.auth.zone, Zone()) && !Equal(rd.auth.zone, Zone())
    }

    /** Lines 1066-1222, the answer without an alias already stored. */
    method Interpret(m: Heard, rd: Reading, server: nat, d: seq<byte>, dtype: seq<byte>, ghost pa: seq<nat>,
                     ghost pb: seq<nat>, ghost end: nat)
      returns (next: Label, ghost followed: bool)
      requires Ready() && server < 16 && ReadingOk(rd) && !rd.ans.alias && Closer(rd)
      requires heard != [] && heard[|heard| - 1] == m && m.zone == Zone() && Sections(m.buf, rd, pa, pb, end)
      requires Some(d) == name[level] && dtype == DType() && IsName(d) && Suffix(d, m.zone)
      modifies `servers, `ns, `control, `ipv6, `said, response, response.buf
      ensures Goes(next) && !next.HAVEPACKET? && !next.SENT? && !next.SERVFAIL? && !next.CNAME?
      ensures next.NXDOMAIN? <==> rd.rcode == 3
      ensures next.NEWNAME? ==> level > 0 && ipv6[level] && rd.auth.soa && !rd.ans.out
      ensures Refers(rd) ==> next in {HAVENS, DIE}
      ensures next.HAVENS? ==> Refers(rd) && if followed then control[level] < old(control[level])
                                             else control == old(control)
      ensures next.ANSWERED? ==> PacketReply(m.buf, d, dtype, minttl, response.hidettl, said)
    {
      hide Query.Ready, Query.Inv, Query.Goes, IsName, Suffix, Equal, Boundary, Sections, PacketReply;
      followed := false;
      ReadyParts();
      InvGoes();
      if rd.rcode == 3 { return NXDOMAIN, false; }
      if Negative(rd, dtype).Some? && level > 0 && dtype == T_A {
        TryIpv6();
        return NEWNAME, false;
      }
      if rd.ans.out || rd.auth.soa || !rd.auth.referral {
        next := FromPacket(m, rd, d, dtype, pa, pb, end);
        return next, false;
      }
      next, followed := Refer(m, rd, server, pa, pb, end);
    }

    /** Lines 1067-1084: that there is no such name, or nothing of the type, is stored. */
    method StoreNegative(rd: Reading, d: seq<byte>, dtype: seq<byte>)
      requires Ready() && ReadingOk(rd) && heard != [] && IsName(d) && Suffix(d, heard[|heard| - 1].zone)
      requires |dtype| == 2
      modifies `stored, cache, cache.x, clock
      ensures Ready() && Inv() && More(old(stored), stored, |heard| - 1, clock.reading, old(clock.n), clock.n)
      ensures stored == old(stored) + Nothing(|heard| - 1, rd, d, dtype, clock.reading(old(clock.n)))
      ensures stored != old(stored) ==> Newest(cache, stored)
    {
      hide Query.Ready, Query.Inv, IsName, Suffix, More, Newest;
      NoMore(stored, |heard| - 1, clock.reading, clock.n);
      ReadyParts();
      var none := Negative(rd, dtype);
      if none.Some? { StoreNothing(none.value, d, rd.auth.soattl); }
    }

    /** Lines 1088-1089: the address of a name server is looked for again, as AAAA. */
    method TryIpv6()
      requires Inv()
      modifies `ipv6
      ensures Goes(NEWNAME) && ipv6 == old(ipv6)[level := true]
    {
      hide CacheOk, NsOk, Stack, LinksTold, LevelsOk, HeardOk, IsName;
      ipv6 := ipv6[level := true];
    }

    /** Lines 1069 and 1083-1084: that there is nothing is stored, too, and found by a lookup. */
    method StoreNothing(typ: seq<byte>, d: seq<byte>, ttl: u32)
      requires Ready() && heard != [] && IsName(d) && Suffix(d, heard[|heard| - 1].zone)
      requires |typ| == 2 && typ != T_AXFR && typ != T_CNAME && ttl <= 604800
      modifies `stored, cache, cache.x, clock
      ensures Ready() && Inv() && More(old(stored), stored, |heard| - 1, clock.reading, old(clock.n), clock.n)
      ensures stored == old(stored) + if |d| <= 255 then [Put(typ, d, [], ttl, false, [], clock.reading(old(clock.n)))]
                                      else []
      ensures |d| <= 255 ==> Newest(cache, stored)
    {
      hide IsName, CacheOk, NsOk, Stack, InControl, LinksTold, LevelsOk, LevelOk, HeardOk, Suffix, StoredOk, Newest;
      NothingStored(heard, typ, d, ttl);
      Store(typ, d, [], ttl, false, []);
    }

    /** Lines 1095-1185. */
    method FromPacket(m: Heard, rd: Reading, d: seq<byte>, dtype: seq<byte>, ghost pa: seq<nat>, ghost pb: seq<nat>,
                      ghost end: nat) returns (next: Label)
      requires Inv() && Some(d) == name[level] && heard != [] && heard[|heard| - 1] == m && IsName(d)
               && Suffix(d, m.zone)
      requires Sections(m.buf, rd, pa, pb, end)
      modifies `servers, `said, response, response.buf
      ensures Goes(next) && next in {LOWERLEVEL, ANSWERED, DIE}
      ensures next.ANSWERED? ==> PacketReply(m.buf, d, dtype, minttl, response.hidettl, said)
    {
      hide Query.Inv, Query.Goes, Query.Answered, IsName, Suffix, Sections, PacketReply, Query.Shape, AddedAll;
      hide AnswerAddrs, IsRecord, Walk, AnswersAt;
      AtLevel();
      if level > 0 {
        SectionRecords(m.buf, rd, pa, pb, end);
        var ok;
        ghost var twice;
        ok, twice := ServersFromAnswers(m, rd.posanswers, rd.answers, d, pa, rd.posauthority);
        InvGoes();
        return if ok then LOWERLEVEL else DIE;
      }
      next := ReplyFromPacket(m, rd, d, dtype, pa, pb, end);
    }

    /** HAVEPACKET, lines 784-1222. */
    method HavePacket(buf: seq<byte>, server: nat) returns (next: Label, ghost followed: bool)
      requires Ready() && server < 16 && servers[level][server] != NOWHERE
      modifies `loop, `servers, `ns, `control, `ipv6, `heard, `stored, `said, response, response.buf, cache, cache.x,
               clock
      ensures loop == old(loop) + 1 && (loop == 500 ==> next == DIE)
      ensures Goes(next) && !next.HAVEPACKET? && !next.SENT? && !next.SERVFAIL?
      ensures heard == old(heard) + [Heard(old(Zone()), old(servers[level][server]), buf)]
      ensures More(old(stored), stored, |heard| - 1, clock.reading, old(clock.n), clock.n)
      ensures next.HAVENS? ==> if followed then control[level] < old(control[level]) else control == old(control)
      ensures next.ANSWERED? ==> PacketReply(buf, old(name[level].value), old(DType()), minttl, response.hidettl, said)
    {
      hide Query.Ready, Query.Inv, Query.Goes, PacketReply, AnswersOk, Sections, More, Query.Shape, Digested, Lame;
      hide Refers, AuthorityOk, Equal, Suffix, IsName, Boundary, Newest;
      followed := false;
      ReadyParts();
      var m := Hear(buf, server);
      NoMore(stored, |heard| - 1, clock.reading, clock.n);
      var over := Tick();
      if over { return DIE, false; }
      ReadyParts();
      var ok, rd;
      ghost var pa, pb, end;
      ok, rd, pa, pb, end := ReadPacket(buf, name[level].value, DType(), minttl);
      if !ok { return DIE, false; }
      next, followed := Consume(m, rd, server, pa, pb, end);
    }

    /** The packet counts as heard from a server of the zone. */
    method Hear(buf: seq<byte>, server: nat) returns (m: Heard)
      requires Ready() && server < 16 && servers[level][server] != NOWHERE
      modifies `heard
      ensures Ready() && m == Heard(Zone(), servers[level][server], buf) && heard == old(heard) + [m]
    {
      hide LevelOk, ServerOf, IsName, CacheOk, LinksTold, LevelsOk, HeardOk, NsOk, Boundary;
      m := Heard(name[level].value[control[level]..], servers[level][server], buf);
      ReadyParts();
      AskedServer(server);
      HeardNext(settings, heard, m);
      CacheMore(cache, heard, m, stored);
      LinksGrow(heard, heard + [m], AliasChain(alias, aliases, name[0].value));
      LevelsGrow(settings, heard, heard + [m], name, control, ns, servers, level);
      LevelGrows(settings, heard, heard + [m], TailOf(name[level], control[level]), ns[level], servers[level]);
      heard := heard + [m];
    }

    /** An address that is asked is one of a server of the zone. */
    lemma AskedServer(server: nat)
      requires Ready() && server < 16 && servers[level][server] != NOWHERE
      ensures ServerOf(settings, heard, Zone(), servers[level][server])
    {
      hide CacheOk, LinksTold, LevelsOk, HeardOk, NsList, ServerOf, Boundary, IsName;
    }

    lemma ReadyParts()
      requires Ready()
      ensures Inv() && Goes(DIE) && level < 5 && |ipv6| == 5 && |DType()| == 2 && minttl <= 300 && |name| == 5
              && |control| == 5 && |ns| == 5 && |servers| == 5 && |servers[level]| == 16 && |ns[level]| == 16
      ensures InControl(name[level], control[level])
    {
      hide CacheOk, Stack, LinksTold, LevelsOk, HeardOk, Boundary, LevelOk;
    }

    /** Line 785. */
    method Tick() returns (over: bool)
      requires Ready()
      modifies `loop
      ensures loop == old(loop) + 1 && Goes(DIE) && (over <==> loop == 500) && (!over ==> Ready())
    {
      hide IsName, CacheOk, LinksTold, LevelsOk, HeardOk, NsOk, Stack, InControl;
      loop := loop + 1;
      over := loop == 500;
    }

    /** Lines 861-1222: a lame server is dropped, the records are stored, and the packet is interpreted. */
    method Consume(m: Heard, rd: Reading, server: nat, ghost pa: seq<nat>, ghost pb: seq<nat>, ghost end: nat)
      returns (next: Label, ghost followed: bool)
      requires Ready() && server < 16 && ReadingOk(rd)
      requires heard != [] && heard[|heard| - 1] == m && m.zone == Zone() && Sections(m.buf, rd, pa, pb, end)
      requires AnswersOk(m.buf, pa, name[level].value, DType(), rd.ans)
      modifies `servers, `ns, `control, `ipv6, `stored, `said, response, response.buf, cache, cache.x, clock
      ensures Goes(next) && !next.HAVEPACKET? && !next.SENT? && !next.SERVFAIL?
      ensures More(old(stored), stored, |heard| - 1, clock.reading, old(clock.n), clock.n)
      ensures next.HAVENS? ==> if followed then control[level] < old(control[level]) else control == old(control)
      ensures Lame(rd, old(Zone()))
              ==> next == HAVENS && stored == old(stored)
                  && servers == old(servers)[level := old(servers)[level][server := NOWHERE]]
      ensures !next.DIE? && !Lame(rd, old(Zone())) ==> Digested(settings, m, |heard| - 1, rd, old(name[level].value),
                                                                old(DType()), minttl, old(stored), stored)
      ensures next.CNAME? ==> next == CNAME(rd.ans.cname, rd.ans.ttl) && rd.ans.alias
      ensures next.NXDOMAIN? ==> rd.rcode == 3 && !rd.ans.alias
      ensures next.ANSWERED?
              ==> PacketReply(m.buf, old(name[level].value), old(DType()), minttl, response.hidettl, said)
    {
      hide Query.Ready, Query.Inv, Query.Goes, IsName, Suffix, Equal, Boundary, More, StoredAll, Digested, Newest;
      hide AnswersOk, Sections, PacketReply;
      followed := false;
      ReadyParts();
      NoMore(stored, |heard| - 1, clock.reading, clock.n);
      TailSuffix(name[level].value, control[level]);
      if Refers(rd) {
        var inside, at := FindSuffix(rd.auth.zone, m.zone);
        if Equal(rd.auth.zone, m.zone) || !inside {
          DropServer(server);
          Havens();
          return HAVENS, false;
        }
      }
      ghost var before, lo := stored, clock.n;
      SectionCounts(m.buf, rd, pa, pb, end);
      var ok := StoreAll(m, rd);
      if !ok { return DIE, false; }
      ReadyParts();
      ghost var was, mid := stored, clock.n;
      next, followed := Decide(m, rd, server, pa, pb, end);
      MoreMore(before, was, stored, |heard| - 1, clock.reading, lo, mid, clock.n);
      DigestedNow(settings, m, |heard| - 1, rd, old(name[level].value), old(DType()), minttl, before, was, stored,
                  clock.reading(mid));
    }

    /** Lines 869-1048. */
    method StoreAll(m: Heard, rd: Reading) returns (ok: bool)
      requires Ready() && heard != [] && heard[|heard| - 1] == m && IsName(m.zone) && |m.buf| >= 12
               && rd.answers + rd.authorities + rd.glue == RecordCount(m.buf)
      modifies `stored, cache, cache.x, clock
      ensures Ready() && Goes(DIE) && minttl <= 300
      ensures More(old(stored), stored, |heard| - 1, clock.reading, old(clock.n), clock.n)
      ensures ok ==> StoredAll(settings, m, |heard| - 1, rd.posauthority, rd.auth.ns, minttl, old(stored), stored)
    {
      hide IsName, CacheOk, NsOk, Stack, InControl, LinksTold, LevelsOk, LevelOk, HeardOk, KeepsNewest, More, Walk;
      hide Taken, AllFiled;
      ghost var ps, last, r, sets;
      ok, ps, last, r, sets :=
        StoreRecords(m, rd.answers + rd.authorities + rd.glue, rd.posauthority, rd.auth.ns);
      if ok {
        assert StoredAs(settings, m, |heard| - 1, rd.posauthority, rd.auth.ns, minttl, old(stored), stored, ps, last, r,
                        sets);
      }
    }

    /** NXDOMAIN, lines 1071-1076, and SERVFAIL, lines 1225-1230. */
    method Refuse(nxdomain: bool) returns (next: Label)
      requires Inv()
      modifies `said, response, response.buf
      ensures Goes(next) && (if level > 0 then next == LOWERLEVEL else next in {ANSWERED, DIE})
      ensures next.ANSWERED? ==> said == []
    {
      hide IsName, Stack, NsOk, CacheOk, LinksTold, LevelsOk, HeardOk, Replying;
      if level > 0 { return LOWERLEVEL; }
      var ok := StartReply();
      if !ok { return DIE; }
      Refused(response, nxdomain, Chain(), AliasTtls(aliasttl, aliases, response.hidettl), said);
      return ANSWERED;
    }

    /** One label of `doit` other than HAVEPACKET. */
    method Step(at: Label, ghost l0: nat, ghost v0: nat) returns (next: Label)
      requires Goes(at) && at.Order() > 0 && !at.HAVEPACKET? && Made(at, loop, level, l0, v0)
      modifies this, response, response.buf, cache, cache.x, clock
      ensures Goes(next) && !next.HAVEPACKET? && asked == old(asked) && qtype == old(qtype) && qclass == old(qclass)
      ensures heard == old(heard) && Marks(old(stored), stored, clock.reading, old(clock.n), clock.n)
      ensures next.ANSWERED? || next.DIE? || Made(next, loop, level, l0, v0)
      ensures Falls(old(loop), old(level), at, loop, level, next)
    {
      hide Query.Inv, Query.Ready, Query.Goes, Query.Shape, Query.Located, Marks, Made, Falls;
      GoesTo(at);
      NoMarks(stored, clock.reading, clock.n);
      if at.NEWNAME? {
        next := NewName();
        NoMarksSince(stored, clock.reading, old(clock.n), clock.n);
      } else if at.HAVENS? {
        next := HaveNs();
      } else {
        next := Leave(at);
      }
      Onward(at, old(loop), old(level), next, loop, level, l0, v0);
    }

    /** The labels that lead down, to another name or to a reply. */
    method Leave(at: Label) returns (next: Label)
      requires Goes(at) && at.Order() > 0 && !at.HAVEPACKET? && !at.NEWNAME? && !at.HAVENS?
      modifies `name, `ns, `level, `alias, `aliasttl, `aliases, `said, response, response.buf
      ensures Goes(next) && next in {NEWNAME, HAVENS, LOWERLEVEL, ANSWERED, DIE}
      ensures at.LOWERLEVEL? ==> next.HAVENS? && level == old(level) - 1
      ensures at.CNAME? ==> next in {NEWNAME, DIE} && level == old(level)
      ensures at.NXDOMAIN? || at.SERVFAIL?
              ==> level == old(level) && if level > 0 then next.LOWERLEVEL? else next in {ANSWERED, DIE}
    {
      hide Query.Inv, Query.Ready, Query.Goes, Query.Shape, AliasChain, Told, IsName;
      GoesTo(at);
      match at {
        case LOWERLEVEL =>
          LowerLevel();
          Havens();
          next := HAVENS;
        case CNAME(cname, ttl) =>
          next := DoCname(cname, ttl);
          if next.DIE? { Dies(); } else { InvGoes(); }
        case NXDOMAIN => next := Refuse(true);
        case SERVFAIL => next := Refuse(false);
      }
    }

    /** What a label promises. */
    lemma GoesTo(at: Label)
      requires Goes(at) && at.Order() > 0
      ensures Inv() && (at.HAVENS? ==> Ready()) && (at.LOWERLEVEL? ==> level > 0)
      ensures at.CNAME? ==> level < 5 && |name| == 5 && name[level].Some? && IsName(at.cname)
                            && Told(heard, name[level].value, T_CNAME, [Domain(at.cname)])
    {
      hide CacheOk, NsOk, LinksTold, LevelsOk, HeardOk, IsName, Told, Boundary;
    }

    lemma Havens()
      requires Ready()
      ensures Goes(HAVENS)
    {
      hide CacheOk, NsOk, Stack, InControl, LinksTold, LevelsOk, HeardOk;
    }

    lemma Dies()
      requires Shape()
      ensures Goes(DIE)
    {
    }

    ghost function Rank(): int
      reads this
    {
      (500 - loop) * 5 + level
    }

    /** `cleanup`, lines 164-177. */
    method Cleanup()
      requires Shape()
      modifies `name, `alias, `ns, `aliases
      ensures Shape() && |name| == 5 && alias == NONE && aliases == 0
    {
      hide IsName, CacheOk, LinksTold, LevelsOk, HeardOk;
      alias, aliases := NONE, 0;
      name := [None, None, None, None, None];
      ns := [NONE, NONE, NONE, NONE, NONE];
    }

    lemma Entering(e: Event)
      requires if e.Started? then Inv() else Ready()
      ensures Goes(if e.Started? then NEWNAME else SERVFAIL)
              && Made(if e.Started? then NEWNAME else SERVFAIL, loop, level, loop, level)
    {
    }

    lemma LoopBound(at: Label)
      requires Goes(at) && at.Order() > 0
      ensures loop < 500 && level < 5
    {
    }

    /** The result of `doit`, lines 773, 1075, 1183, 1229 and 1233-1236. */
    method Finish(at: Label) returns (r: int, ghost chain: seq<seq<byte>>, ghost ttls: seq<u32>)
      requires Goes(at) && at.Order() == 0
      modifies `name, `alias, `ns, `aliases
      ensures Shape() && r == (if at.SENT? then 0 else if at.ANSWERED? then 1 else -1)
      ensures at.SENT? ==> Goes(SENT) && loop < 500 && level < 5
      ensures at.ANSWERED? ==> chain != [] && chain[0] == asked
                               && Answer(response, chain, ttls, said, qtype + qclass, heard, settings)
    {
      hide IsName, CacheOk, LinksTold, LevelsOk, HeardOk, NsOk, Replying, Stack, InControl;
      chain, ttls := [], [];
      if at.SENT? { return 0, chain, ttls; }
      if at.ANSWERED? {
        chain, ttls := Chain(), AliasTtls(aliasttl, aliases, response.hidettl);
        Cleanup();
        return 1, chain, ttls;
      }
      Cleanup();
      return -1, chain, ttls;
    }

    /**
    `doit`, lines 344-1237. It ends; what is sent is a name whose tail is the zone of the servers
    asked, later in the order of loop and level than the call before; a reply answers what was asked
    with what servers of the right zones said; and what was stored came from such servers, too.
    */
    method Doit(e: Event) returns (r: int, ghost chain: seq<seq<byte>>, ghost ttls: seq<u32>)
      requires Comes(e)
      modifies this, response, response.buf, cache, cache.x, clock
      ensures r in {-1, 0, 1} && Shape() && asked == old(asked) && qtype == old(qtype) && qclass == old(qclass)
      ensures r == 0 ==> Goes(SENT) && Rank() < old(Rank()) && 0 <= Rank()
      ensures r == 1 ==> chain != [] && chain[0] == asked
                         && Answer(response, chain, ttls, said, old(qtype + qclass), heard, settings)
      ensures Logged(old(Packets(e)), old(heard), heard, old(stored), stored, clock.reading, old(clock.n), clock.n)
    {
      hide Query.Inv, Query.Ready, Query.Goes, Query.Shape, Query.Comes, Query.Packets, Answer, Marks, Logged;
      hide InControl, TailOf, AliasChain, Told;
      ghost var l0, v0, ms := loop, level, Packets(e);
      var at := Begin(e);
      ghost var told := heard;
      while at.Order() > 0
        invariant Goes(at) && !at.HAVEPACKET? && asked == old(asked) && qtype == old(qtype) && qclass == old(qclass)
        invariant at.ANSWERED? || at.DIE? || Made(at, loop, level, l0, v0)
        invariant heard == told
        invariant Logged(ms, old(heard), told, old(stored), stored, clock.reading, old(clock.n), clock.n)
        decreases 500 - loop - at.Ahead(), level, at.Order()
      {
        LoopBound(at);
        ghost var was, mid := stored, clock.n;
        at := Step(at, l0, v0);
        LoggedMarks(ms, old(heard), told, old(stored), was, stored, clock.reading, old(clock.n), mid, clock.n);
      }
      r, chain, ttls := Finish(at);
    }

    /** The packet an event brings, with the zone and the address of the server it comes from. */
    ghost function Packets(e: Event): seq<Heard>
      reads this
    {
      if e.Arrived? && level < |servers| && e.server < |servers[level]| && level < |name| && level < |control| then
        [Heard(TailOf(name[level], control[level]), servers[level][e.server], e.buf)]
      else []
    }

    /** When `doit` is called with an event: a packet comes from one of the servers that were asked. */
    ghost predicate Comes(e: Event)
      reads this, response, cache, cache.x
    {
      if e.Started? then Inv()
      else Ready() && (e.Arrived? ==> e.server < 16 && servers[level][e.server] != NOWHERE)
    }

    lemma CanCome(e: Event)
      requires Comes(e)
      ensures if e.Started? then Inv() else Ready() && (e.Arrived? ==> e.server < 16 && |servers| == 5 && level < 5
                                                                        && |servers[level]| == 16
                                                                        && servers[level][e.server] != NOWHERE
                                                                        && |name| == 5 && |control| == 5
                                                                        && InControl(name[level], control[level]))
    {
      hide CacheOk, LinksTold, LevelsOk, LevelOk, HeardOk, Boundary, IsName, Stack;
    }

    /** Lines 388-394: where the call starts. */
    method Begin(e: Event) returns (at: Label)
      requires Comes(e)
      modifies `loop, `servers, `ns, `control, `ipv6, `heard, `stored, `said, response, response.buf, cache, cache.x,
               clock
      ensures Goes(at) && !at.HAVEPACKET? && (at.ANSWERED? || at.DIE? || Made(at, loop, level, old(loop), level))
      ensures Logged(old(Packets(e)), old(heard), heard, old(stored), stored, clock.reading, old(clock.n), clock.n)
    {
      hide Query.Inv, Query.Ready, Query.Goes, Boundary, IsName, More, Marks, Query.Comes, PacketReply, Newest;
      CanCome(e);
      NoMarks(stored, clock.reading, clock.n);
      at := if e.Started? then NEWNAME else SERVFAIL;
      if e.Arrived? {
        ReadyParts();
        ghost var followed;
        assert Packets(e) == [Heard(Zone(), servers[level][e.server], e.buf)];
        at, followed := HavePacket(e.buf, e.server);
      } else {
        if e.Failed? {
          ghost var lo := clock.n;
          NoAnswer();
          OneMark(old(stored), stored, clock.reading, lo, clock.n);
        }
        Entering(e);
      }
    }

    /** `query_start`, lines 1239-1254. */
    method Start(dn: seq<byte>, typ: seq<byte>, class_: seq<byte>)
      returns (r: int, ghost chain: seq<seq<byte>>, ghost ttls: seq<u32>)
      requires Shape() && IsName(dn) && |typ| == 2 && |class_| == 2
      modifies this, response, response.buf, cache, cache.x, clock
      ensures r in {-1, 0, 1} && (typ == T_AXFR ==> r == -1) && Shape()
      ensures heard == old(heard) && Marks(old(stored), stored, clock.reading, old(clock.n), clock.n)
      ensures r == 0 ==> Goes(SENT) && asked == dn && qtype == typ && qclass == class_ && 0 <= Rank() < 2500
      ensures r == 1 ==> chain != [] && chain[0] == dn
                         && Answer(response, chain, ttls, said, typ + class_, heard, settings)
    {
      hide Query.Goes, Query.Shape, Query.Inv, Answer, Marks;
      chain, ttls := [], [];
      NoMarks(stored, clock.reading, clock.n);
      if typ == T_AXFR { return -1, chain, ttls; }
      var ok := Prepare(dn, typ, class_);
      if !ok { return -1, chain, ttls; }
      r, chain, ttls := Doit(Started);
    }

    /** Lines 1243-1251. */
    method Prepare(dn: seq<byte>, typ: seq<byte>, class_: seq<byte>) returns (ok: bool)
      requires Shape() && IsName(dn) && |typ| == 2 && |class_| == 2
      modifies this
      ensures Shape() && heard == old(heard) && stored == old(stored)
      ensures ok ==> Inv() && asked == dn && qtype == typ && qclass == class_ && Rank() == 2500
    {
      hide Query.Inv, IsName, CacheOk, HeardOk, NsOk, ServersOk;
      Cleanup();
      level, loop := 0, 0;
      ok := Succeeds();
      if !ok { return; }
      name := name[0 := Some(dn)];
      qtype, qclass := typ, class_;
      ipv6 := ipv6[0 := false];
      asked := dn;
      Starts(dn);
    }

    lemma Starts(dn: seq<byte>)
      requires Shape() && IsName(dn) && loop == 0 && level == 0 && |name| == 5 && name[0] == Some(dn)
      requires alias == NONE && aliases == 0 && asked == dn
      ensures Inv()
    {
      hide IsName, CacheOk, HeardOk;
    }

    /**
    A whole query: `query_start` and then `query_get` as often as there is something to get. It ends
    after at most 2500 calls of `doit`, whatever the servers say; and every alias and every record of
    the reply was said by a packet that came from servers of a zone its owner is in, now or when it
    was cached.
    */
    method Resolve(dn: seq<byte>, typ: seq<byte>, class_: seq<byte>) returns (r: int, calls: nat)
      requires Shape() && IsName(dn) && |typ| == 2 && |class_| == 2
      modifies this, response, response.buf, cache, cache.x, clock
      ensures r in {-1, 1} && calls <= 2500 && Shape() && old(heard) <= heard && old(stored) <= stored
      ensures HeardOk(settings, heard)
      ensures r == 1 ==> exists chain, ttls :: chain != [] && chain[0] == dn
                                               && Answer(response, chain, ttls, said, typ + class_, heard, settings)
    {
      hide Query.Goes, Query.Shape, Answer, IsName, Marks;
      ghost var chain, ttls;
      r, chain, ttls := Start(dn, typ, class_);
      MarksOnly(old(stored), stored, clock.reading, old(clock.n), clock.n);
      calls := 1;
      while r == 0
        invariant r in {-1, 0, 1} && Shape() && calls <= 2500 && old(heard) <= heard && old(stored) <= stored
        invariant r == 0 ==> Goes(SENT) && asked == dn && qtype == typ && qclass == class_ && 0 <= Rank()
                             && calls + Rank() <= 2500
        invariant r == 1 ==> chain != [] && chain[0] == dn
                             && Answer(response, chain, ttls, said, typ + class_, heard, settings)
        decreases if r == 0 then Rank() + 1 else 0
      {
        r, chain, ttls := Await();
        calls := calls + 1;
      }
      Sources();
    }

    /** `query_get`, lines 1256-1265, when there is something to get. */
    method Await() returns (r: int, ghost chain: seq<seq<byte>>, ghost ttls: seq<u32>)
      requires Goes(SENT)
      modifies this, response, response.buf, cache, cache.x, clock
      ensures r in {-1, 0, 1} && Shape() && asked == old(asked) && qtype == old(qtype) && qclass == old(qclass)
      ensures 0 < old(Rank()) && (r == 0 ==> Goes(SENT) && Rank() < old(Rank()) && 0 <= Rank())
      ensures r == 1 ==> chain != [] && chain[0] == asked
                         && Answer(response, chain, ttls, said, old(qtype + qclass), heard, settings)
      ensures old(heard) <= heard && old(stored) <= stored
    {
      hide Query.Goes, Query.Shape, Query.Comes, Answer, Marks, Query.Packets, Logged;
      var server: nat :| server < 16;
      var buf: seq<byte> := *;
      var arrived := Succeeds();
      var e := Failed;
      MayCome(buf, server);
      if arrived && servers[level][server] != NOWHERE { e := Arrived(buf, server); }
      ghost var ms, lo := Packets(e), clock.n;
      r, chain, ttls := Doit(e);
      LoggedOnly(ms, old(heard), heard, old(stored), stored, clock.reading, lo, clock.n);
    }

    /** While a question is under way, any failure and any packet from a server that was asked may come. */
    lemma MayCome(buf: seq<byte>, server: nat)
      requires Goes(SENT) && server < 16
      ensures Comes(Failed) && loop < 500 && level < 5 && |servers| == 5 && |servers[level]| == 16
      ensures servers[level][server] != NOWHERE ==> Comes(Arrived(buf, server))
    {
      hide CacheOk, LinksTold, LevelsOk, LevelOk, HeardOk, Boundary, IsName, Stack;
    }

    /** What holds of a query under way while others use the cache. */
    ghost predicate Waiting()
      reads this
    {
      Sized() && Named() && Zoned() && exists j :: 0 <= j < |servers[level]| && servers[level][j] != NOWHERE
    }

    lemma Waits()
      requires Goes(SENT)
      ensures Waiting()
    {
      hide CacheOk, LinksTold, LevelsOk, LevelOk, HeardOk, Boundary, IsName, Stack;
    }

    /** The query takes part in what others heard and stored since: all that was told stays told. */
    ghost method CatchUp(more: seq<Heard>, kept: seq<Stored>)
      requires Sized() && heard <= more && HeardOk(settings, more)
      requires response.Sane() && CacheOk(cache, more, kept) && cache.x != response.buf
      modifies `heard, `stored
      ensures Shape() && heard == more && stored == kept
      ensures old(Waiting()) ==> Goes(SENT)
    {
      hide CacheOk, LinksTold, LevelsOk, LevelOk, HeardOk, Boundary, IsName, Stack;
      if Waiting() {
        LinksGrow(heard, more, AliasChain(alias, aliases, name[0].value));
        LevelsGrow(settings, heard, more, name, control, ns, servers, level);
        LevelGrows(settings, heard, more, TailOf(name[level], control[level]), ns[level], servers[level]);
      }
      heard := more;
      stored := kept;
    }

    lemma ShapeParts()
      requires Shape()
      ensures Sized() && response.Sane() && CacheOk(cache, heard, stored) && cache.x != response.buf
              && HeardOk(settings, heard)
    {
    }

    lemma Sources()
      requires Shape()
      ensures HeardOk(settings, heard)
    {
    }
  }

  /** The first query of a process, with an empty cache: whatever the reply says, a packet heard in this query said. */
  method ResolveFirst(cachesize: int, siphash: seq<byte> -> u32, reading: nat -> nat, g: Settings, forward: bool,
                      minimum: u32, hideTtl: bool, dn: seq<byte>, typ: seq<byte>, class_: seq<byte>)
    returns (r: int, calls: nat, q: Query)
    requires minimum <= 300 && IsName(dn) && |typ| == 2 && |class_| == 2
    ensures fresh(q) && r in {-1, 1} && calls <= 2500 && q.settings == g && HeardOk(g, q.heard)
    ensures r == 1 ==> exists chain, ttls :: chain != [] && chain[0] == dn
                                             && Answer(q.response, chain, ttls, q.said, typ + class_, q.heard, g)
  {
    hide Answer, IsName, CacheOk, AllStored, Cache.Cache.Valid;
    var c := new Cache.Cache(cachesize, siphash);
    NothingKept();
    CloseCache(c, [], []);
    var response := new Response(hideTtl);
    var clock := new Clock(reading);
    q := new Query(response, c, clock, g, forward, minimum, [], []);
    r, calls := q.Resolve(dn, typ, class_);
  }
}
