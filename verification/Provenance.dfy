/**
Where the answers of the resolver come from. A packet comes from a server of a zone; what it says
about a name counts only if the name is in that zone. The cache holds what such packets said, and
the most recent of it.
*/
module Provenance {
  import opened Bits
  import opened Names
  import opened Packet
  import opened Message
  import opened RecordOrder
  import opened PacketScan
  import opened RecordData
  import opened Wrappers
  import opened CacheList
  import opened CacheHistory
  import Cache

  /** A packet, the zone of the servers that were asked, and the address of the one that answered. */
  datatype Heard = Heard(zone: seq<byte>, from: seq<byte>, buf: seq<byte>)

  /** Where the records of a packet start. */
  function AnswersAt(buf: seq<byte>): nat { SkipName(buf, 12) + 4 }

  /** How many records the header counts. */
  function RecordCount(buf: seq<byte>): nat
    requires |buf| >= 12
  {
    Be16(buf, 6) + Be16(buf, 8) + Be16(buf, 10)
  }

  /** One of the records the packet counts starts at `p`. */
  ghost predicate IsRecord(buf: seq<byte>, p: nat)
  {
    |buf| >= 12 && exists ps, end :: Walk(buf, AnswersAt(buf), ps, end) && p in ps && |ps| <= RecordCount(buf)
  }

  /** The record at `p` says that the name, which is in the zone of the servers asked, has the data. */
  ghost predicate Says(m: Heard, p: nat, owner: seq<byte>, typ: seq<byte>, items: seq<Item>)
  {
    && IsRecord(m.buf, p) && Owned(m.buf, p, owner) && TypeAt(m.buf, p) == typ && DataOf(m.buf, p, typ) == Some(items)
    && IsName(NameAt(m.buf, p)) && Suffix(NameAt(m.buf, p), m.zone)
  }

  ghost predicate ToldBy(m: Heard, owner: seq<byte>, typ: seq<byte>, items: seq<Item>)
  {
    exists p: nat :: Says(m, p, owner, typ, items)
  }

  /** Some packet said so. */
  ghost predicate Told(heard: seq<Heard>, owner: seq<byte>, typ: seq<byte>, items: seq<Item>)
  {
    exists h :: 0 <= h < |heard| && ToldBy(heard[h], owner, typ, items)
  }

  lemma ToldMore(heard: seq<Heard>, m: Heard, owner: seq<byte>, typ: seq<byte>, items: seq<Item>)
    requires Told(heard, owner, typ, items)
    ensures Told(heard + [m], owner, typ, items)
  {
    hide ToldBy;
    var h :| 0 <= h < |heard| && ToldBy(heard[h], owner, typ, items);
    assert (heard + [m])[h] == heard[h];
  }

  lemma ToldNow(heard: seq<Heard>, h: nat, owner: seq<byte>, typ: seq<byte>, items: seq<Item>)
    requires h < |heard| && ToldBy(heard[h], owner, typ, items)
    ensures Told(heard, owner, typ, items)
  {
  }

  /** What is said of a name is said of it in any case. */
  lemma SaysEqual(m: Heard, owner: seq<byte>, other: seq<byte>, typ: seq<byte>, items: seq<Item>)
    requires ToldBy(m, owner, typ, items) && Equal(owner, other)
    ensures ToldBy(m, other, typ, items)
  {
    hide IsRecord, ViewAt, Lower, DataOf, TypeAt, NameAt;
    var p: nat :| Says(m, p, owner, typ, items);
    assert Says(m, p, other, typ, items);
  }

  // ----- what was stored

  /**
  A call of `cache_set`: an entry made from packet number `h`, or an entry that marks something and does not come
  from a packet. `at` is what the clock read.
  */
  datatype Stored =
    | Stored(h: nat, typ: seq<byte>, owner: seq<byte>, data: seq<byte>, ttl: u32, flag: bool, items: seq<seq<Item>>,
             at: nat)
    | Marked(key: seq<byte>, data: seq<byte>, ttl: u32, at: nat)

  /** The owner is in the zone of the servers that sent the packet, and the data is what the packet says about it. */
  ghost predicate StoredOk(heard: seq<Heard>, s: Stored)
  {
    if s.Marked? then Marker(s.key)
    else
      && s.h < |heard| && |s.typ| == 2 && s.typ != T_AXFR && IsName(s.owner) && |s.owner| <= 255 && s.ttl <= 604800
      && Suffix(s.owner, heard[s.h].zone) && AllFit(LayoutOf(s.typ), s.items)
      && s.data == EncodeAll(LayoutOf(s.typ), s.items)
      && (s.typ == T_CNAME ==> |s.items| == 1)
      && forall i :: 0 <= i < |s.items| ==> ToldBy(heard[s.h], s.owner, s.typ, s.items[i])
  }

  /** The same call at another time. */
  ghost function AtTime(s: Stored, t: nat): Stored
  {
    match s
    case Stored(h, typ, owner, data, ttl, flag, items, _) => Stored(h, typ, owner, data, ttl, flag, items, t)
    case Marked(key, data, ttl, _) => Marked(key, data, ttl, t)
  }

  lemma StoredAt(heard: seq<Heard>, s: Stored, t: nat)
    requires StoredOk(heard, s)
    ensures StoredOk(heard, AtTime(s, t))
  {
    hide IsName, Suffix, AllFit, ToldBy, EncodeAll;
  }

  /** The entry a call adds to the cache, if it is not ignored. */
  function Filing(s: Stored): seq<Entry>
  {
    match s
    case Stored(_, typ, owner, data, ttl, flag, _, at) =>
      Accepted(KeyOf(typ, owner), data, ttl, if flag then 1 else 0, at)
    case Marked(key, data, ttl, at) => Accepted(key, data, ttl, 0, at)
  }

  /** All entries added, in order. */
  function Filings(stored: seq<Stored>): seq<Entry>
  {
    if stored == [] then [] else Filings(stored[..|stored| - 1]) + Filing(stored[|stored| - 1])
  }

  lemma FilingsNext(stored: seq<Stored>, s: Stored)
    ensures Filings(stored + [s]) == Filings(stored) + Filing(s)
  {
    assert (stored + [s])[..|stored|] == stored;
  }

  ghost predicate AllStored(heard: seq<Heard>, stored: seq<Stored>)
  {
    forall k :: 0 <= k < |stored| ==> StoredOk(heard, stored[k])
  }

  lemma StoredMore(heard: seq<Heard>, m: Heard, stored: seq<Stored>)
    requires AllStored(heard, stored)
    ensures AllStored(heard + [m], stored)
  {
    hide ToldBy, IsName, Suffix, AllFit, LayoutOf;
    forall k | 0 <= k < |stored| ensures StoredOk(heard + [m], stored[k]) {
      assert StoredOk(heard, stored[k]);
      if stored[k].Stored? { assert (heard + [m])[stored[k].h] == heard[stored[k].h]; }
    }
  }

  function KeyOf(typ: seq<byte>, owner: seq<byte>): seq<byte> { typ + Lower(owner) }

  /** Keys of markers and shared secrets, which do not come from packets. */
  predicate Marker(key: seq<byte>) { |key| >= 2 && key[..2] == T_AXFR }

  ghost predicate Matches(e: Entry, s: Stored)
  {
    s.Stored? && e.key == KeyOf(s.typ, s.owner) && e.data == s.data && (e.flags != 0 <==> s.flag)
  }

  /** Every entry of the cache but the markers was stored. */
  ghost predicate Backed(q: seq<Entry>, stored: seq<Stored>)
  {
    forall i :: 0 <= i < |q| && !Marker(q[i].key) ==> exists k :: 0 <= k < |stored| && Matches(q[i], stored[k])
  }

  /**
  The cache holds what was stored, the most recent of it, and that is what was heard. The statement is guarded by
  `Opened`, so that
  it does not enter the many proofs that only pass it on; `OpenCache` and `CloseCache` lead in and out.
  */
  ghost predicate CacheOk(c: Cache.Cache, heard: seq<Heard>, stored: seq<Stored>)
    reads c, c.x
  {
    forall n: nat :: Opened(n) ==> c.Valid() && Backed(c.Queue(), stored) && AllStored(heard, stored)
                                   && KeepsNewest(c, stored)
  }

  ghost predicate Opened(n: nat) { n >= 0 }

  /** The bytes of the buffer behind the table. */
  ghost function Room(c: Cache.Cache): int
    reads c
  {
    c.size - c.hsize
  }

  /** The queue of the cache is the newest of what was ever set. */
  ghost predicate KeepsNewest(c: Cache.Cache, stored: seq<Stored>)
    reads c
  {
    Recent(Room(c), Filings(stored), c.Queue())
  }

  /** What was set last is found, whenever it is looked up, if it fits at all. */
  ghost predicate Newest(c: Cache.Cache, stored: seq<Stored>)
    reads c
  {
    stored != [] ==> forall e, now: nat :: Filing(stored[|stored| - 1]) == [e] && Len(e) <= Room(c)
                                      ==> Cache.Find(c.q, e.key, now) == Cache.Answer(e, now)
  }

  /**
  However many calls later: the entry set last for a key answers a lookup, while it and the newer ones leave room for
  the largest entry and at most a hundred of them are in its bucket.
  */
  lemma StillFound(c: Cache.Cache, heard: seq<Heard>, stored: seq<Stored>, i: nat, now: nat)
    requires CacheOk(c, heard, stored) && i < |Filings(stored)|
    requires Cache.Total(Filings(stored)[i..]) <= Room(c) - Cache.MAXENTRY
    requires forall j :: i < j < |Filings(stored)| ==> Filings(stored)[j].key != Filings(stored)[i].key
    ensures var k := |c.q| - (|Filings(stored)| - i);
            0 <= k && (Cache.InBucket(c.q[k + 1..], c.q[k].bucket) <= 100
                       ==> Cache.Find(c.q, Filings(stored)[i].key, now) == Cache.Answer(Filings(stored)[i], now))
  {
    hide Cache.Cache.Valid, Cache.Total, Cache.InBucket, Cache.Find, Cache.Answer, Backed, AllStored, Recent, Filings;
    OpenCache(c, heard, stored);
    Lasting(Room(c), Filings(stored), c.q, i, now);
  }

  lemma NewestFound(c: Cache.Cache, heard: seq<Heard>, stored: seq<Stored>)
    requires CacheOk(c, heard, stored)
    ensures Newest(c, stored)
  {
    hide Cache.Cache.Valid, Backed, AllStored, Recent, Cache.Find, Cache.Answer, Filing, Len;
    OpenCache(c, heard, stored);
    if stored != [] {
      var n := |stored| - 1;
      forall e, now: nat | Filing(stored[n]) == [e] && Len(e) <= Room(c)
        ensures Cache.Find(c.q, e.key, now) == Cache.Answer(e, now)
      {
        LastFound(Room(c), Filings(stored), c.q, now);
      }
    }
  }

  lemma OpenCache(c: Cache.Cache, heard: seq<Heard>, stored: seq<Stored>)
    requires CacheOk(c, heard, stored)
    ensures c.Valid() && Backed(c.Queue(), stored) && AllStored(heard, stored) && KeepsNewest(c, stored)
  {
    hide Cache.Cache.Valid, Backed, AllStored, KeepsNewest;
    assert Opened(0);
  }

  lemma CloseCache(c: Cache.Cache, heard: seq<Heard>, stored: seq<Stored>)
    requires c.Valid() && Backed(c.Queue(), stored) && AllStored(heard, stored) && KeepsNewest(c, stored)
    ensures CacheOk(c, heard, stored)
  {
    hide Cache.Cache.Valid, Backed, AllStored, KeepsNewest;
  }

  lemma NothingKept()
    ensures Backed([], []) && AllStored([], []) && Filings([]) == [] && forall room :: Recent(room, [], [])
  {
    forall room ensures Recent(room, [], []) { RecentNone(room); }
  }

  lemma CacheMore(c: Cache.Cache, heard: seq<Heard>, m: Heard, stored: seq<Stored>)
    requires CacheOk(c, heard, stored)
    ensures CacheOk(c, heard + [m], stored)
  {
    hide Cache.Cache.Valid, Backed, AllStored, KeepsNewest;
    OpenCache(c, heard, stored);
    StoredMore(heard, m, stored);
    CloseCache(c, heard + [m], stored);
  }

  lemma BackedSome(q: seq<Entry>, q': seq<Entry>, stored: seq<Stored>, stored': seq<Stored>, d: nat, e: Entry)
    requires Backed(q, stored) && |stored| <= |stored'| && stored'[..|stored|] == stored && d <= |q|
    requires q' == q || q' == [] || q' == q[d..] + [e]
    requires Marker(e.key) || exists k :: 0 <= k < |stored'| && Matches(e, stored'[k])
    ensures Backed(q', stored')
  {
    hide Matches, Marker;
    forall i | 0 <= i < |q'| && !Marker(q'[i].key) ensures exists k :: 0 <= k < |stored'|
                                                                       && Matches(q'[i], stored'[k]) {
      if q'[i] != e {
        assert q'[i] in q;
        var j :| 0 <= j < |q| && q[j] == q'[i];
        var k :| 0 <= k < |stored| && Matches(q[j], stored[k]);
        assert stored'[k] == stored'[..|stored|][k];
      }
    }
  }

  // ----- the records of a packet about one name

  /** A record of the packet owned by the name, of class IN and the type. */
  ghost predicate RecordOf(m: Heard, p: nat, owner: seq<byte>, typ: seq<byte>)
  {
    IsRecord(m.buf, p) && Owned(m.buf, p, owner) && TypeAt(m.buf, p) == typ && IsName(NameAt(m.buf, p))
  }

  /** If the name is in the zone, the record counts. */
  lemma RecordSays(m: Heard, p: nat, owner: seq<byte>, typ: seq<byte>, items: seq<Item>)
    requires RecordOf(m, p, owner, typ) && DataOf(m.buf, p, typ) == Some(items) && IsName(owner)
             && Suffix(owner, m.zone)
    ensures ToldBy(m, owner, typ, items)
  {
    hide IsRecord, IsName, Suffix, NameAt, DataOf, TypeAt;
    SuffixEqual(owner, NameAt(m.buf, p), m.zone);
    assert Says(m, p, owner, typ, items);
  }

  /** So do the records of a set. */
  lemma SetTold(m: Heard, ps: seq<nat>, owner: seq<byte>, typ: seq<byte>, posauthority: nat)
    requires (forall i :: 0 <= i < |ps| ==> RecordOf(m, ps[i], owner, typ)) && IsName(owner) && Suffix(owner, m.zone)
    ensures forall i :: 0 <= i < |SetItems(m.buf, ps, typ, posauthority)|
                        ==> ToldBy(m, owner, typ, SetItems(m.buf, ps, typ, posauthority)[i])
  {
    hide RecordOf, IsName, Suffix, ToldBy, DataOf;
    var list := SetItems(m.buf, ps, typ, posauthority);
    forall i | 0 <= i < |list| ensures ToldBy(m, owner, typ, list[i]) {
      var k := SetItemOf(m.buf, ps, typ, posauthority, i);
      RecordSays(m, ps[k], owner, typ, list[i]);
    }
  }

  /** The alias a scan of the answers finds was told. */
  lemma AliasTold(m: Heard, pa: seq<nat>, mid: nat, d: seq<byte>, dtype: seq<byte>, a: Answers)
    requires Walk(m.buf, AnswersAt(m.buf), pa, mid) && AnswersOk(m.buf, pa, d, dtype, a) && a.alias
    requires |m.buf| >= 12 && |pa| <= RecordCount(m.buf)
    requires IsName(d) && Suffix(d, m.zone)
    ensures ToldBy(m, d, T_CNAME, [Domain(a.cname)])
  {
    hide Walk, ViewAt, IsName, Suffix, NameAt, SkipName, ToldBy;
    var i :| 0 <= i < |pa| && AliasTo(m.buf, pa[i], d, dtype, a.cname);
    WalkForward(m.buf, AnswersAt(m.buf), pa, mid, i);
    WalkNamed(m.buf, pa[i]);
    assert a.cname != [] by { NameNotEmpty(a.cname); }
    RecordSays(m, pa[i], d, T_CNAME, [Domain(a.cname)]);
  }

  lemma NameNotEmpty(d: seq<byte>)
    requires IsName(d)
    ensures d != []
  {
  }

  lemma WalkNamed(buf: seq<byte>, p: nat)
    requires Readable(buf, p)
    ensures IsName(NameAt(buf, p)) && |NameAt(buf, p)| <= 255 && DataAt(buf, p) <= |buf|
  {
    NameAtName(buf, p);
  }

  // ----- the cache, as the resolver uses it

  /** The clock is an outside event: `reading` is what it reads, one time after the other, and may do anything. */
  class Clock {
    const reading: nat -> nat
    var n: nat

    constructor (reading: nat -> nat)
      ensures this.reading == reading && n == 0
    {
      this.reading := reading;
      n := 0;
    }

    method Now() returns (t: nat)
      modifies this
      ensures t == reading(old(n)) && n == old(n) + 1
    {
      t := reading(n);
      n := n + 1;
    }
  }

  datatype Found = Found(data: seq<byte>, ttl: u32, flag: byte)

  lemma HitIndex(q: seq<Placed>, key: seq<byte>, now: nat) returns (i: nat)
    requires Cache.Find(q, key, now).Hit?
    ensures i < |q| && q[i].e.key == key && q[i].e.data == Cache.Find(q, key, now).data
            && q[i].e.flags == Cache.Find(q, key, now).flags
    ensures Cache.Find(q, key, now).ttl <= 604800
  {
    i := Cache.FindLast(Cache.Entries(q), key);
  }

  /** The answer of a lookup, as the resolver has it. */
  function Hit(r: Cache.Lookup): (hit: Option<Found>)
    requires r.Hit? ==> r.ttl <= 604800
  {
    match r
    case Miss => None
    case Hit(data, ttl, flags) => Some(Found(data, ttl, flags))
  }

  /** What a lookup at a moment finds. */
  ghost function LookAt(c: Cache.Cache, key: seq<byte>, now: nat): Option<Found>
    reads c
  {
    ShortTtl(c.q, key, now);
    Hit(Cache.Find(c.q, key, now))
  }

  lemma ShortTtl(q: seq<Placed>, key: seq<byte>, now: nat)
    ensures Cache.Find(q, key, now).Hit? ==> Cache.Find(q, key, now).ttl <= 604800
  {
    if Cache.Find(q, key, now).Hit? { var i := HitIndex(q, key, now); }
  }

  /** `cache_get`: what is found under a key other than that of a marker was stored. */
  method Look(c: Cache.Cache, clock: Clock, key: seq<byte>, ghost heard: seq<Heard>, ghost stored: seq<Stored>)
    returns (hit: Option<Found>, ghost k: nat)
    requires CacheOk(c, heard, stored)
    modifies clock
    ensures clock.n == old(clock.n) + 1 && hit == LookAt(c, key, clock.reading(old(clock.n)))
    ensures hit.Some? && !Marker(key)
            ==> k < |stored| && Matches(Entry(key, hit.value.data, 0, hit.value.flag), stored[k])
  {
    hide Cache.Find, Matches, Cache.Cache.Valid, Backed, AllStored, KeepsNewest;
    OpenCache(c, heard, stored);
    var t := clock.Now();
    var r := c.Get(key, t);
    k := 0;
    if r.Miss? { return None, k; }
    ghost var i := HitIndex(c.q, key, t);
    if !Marker(key) {
      k := FromQueue(c.q, stored, i);
      MatchesSame(c.q[i].e, Entry(key, r.data, 0, r.flags), stored[k]);
    }
    hit := Some(Found(r.data, r.ttl, r.flags));
  }

  lemma MatchesSame(e: Entry, f: Entry, s: Stored)
    requires Matches(e, s) && e.key == f.key && e.data == f.data && e.flags == f.flags
    ensures Matches(f, s)
  {
  }

  lemma FromQueue(q: seq<Placed>, stored: seq<Stored>, i: nat) returns (k: nat)
    requires Backed(Cache.Entries(q), stored) && i < |q| && !Marker(q[i].e.key)
    ensures k < |stored| && Matches(q[i].e, stored[k])
  {
    hide Matches, Marker;
    assert Cache.Entries(q)[i] == q[i].e;
    k :| 0 <= k < |stored| && Matches(q[i].e, stored[k]);
  }

  /** What `cache_set` does with the queue keeps that it holds the newest of what was set. */
  lemma HoldsNext(room: int, stored: seq<Stored>, s: Stored, key: seq<byte>, flags: byte, a: seq<Entry>, b: seq<Entry>,
                  d: nat)
    requires Recent(room, Filings(stored), a) && Filing(s) == Accepted(key, s.data, s.ttl, flags, s.at)
    requires Cache.Settled(a, b, d, room, key, s.data, s.ttl, flags, s.at)
    ensures Recent(room, Filings(stored + [s]), b)
  {
    hide Recent, Cache.Total, Filings, Filing, Cache.Expiry;
    FilingsNext(stored, s);
    if Cache.Rejected(key, s.data, s.ttl) {
      assert Filings(stored) + [] == Filings(stored);
    } else {
      RecentSet(room, Filings(stored), a, b, Filing(s)[0], d);
    }
  }

  /** `cache_set` of an entry that came from a packet. */
  method Keep(c: Cache.Cache, clock: Clock, key: seq<byte>, ghost heard: seq<Heard>, ghost stored: seq<Stored>,
              ghost s: Stored, data: seq<byte>, ttl: u32, flag: bool)
    returns (ghost put: Stored)
    requires CacheOk(c, heard, stored) && StoredOk(heard, s) && s.Stored? && key == KeyOf(s.typ, s.owner)
    requires data == s.data && ttl == s.ttl && flag == s.flag
    modifies c, c.x, clock
    ensures clock.n == old(clock.n) + 1 && put == AtTime(s, clock.reading(old(clock.n)))
    ensures CacheOk(c, heard, stored + [put])
  {
    hide StoredOk, Backed, Cache.Cache.Valid, Recent, Cache.Total, Filings, Cache.Expiry;
    OpenCache(c, heard, stored);
    var now := clock.Now();
    put := AtTime(s, now);
    StoredAt(heard, s, now);
    ghost var q := c.Queue();
    var b: byte := if flag then 1 else 0;
    ghost var d := c.Set(key, data, ttl, b, now);
    HoldsNext(Room(c), stored, put, key, b, q, c.Queue(), d);
    ghost var e := Entry(key, data, if ttl > 0 then Cache.Expiry(now, Cache.Clip(ttl)) else 0, b);
    assert Matches(e, (stored + [put])[|stored|]);
    BackedSome(q, c.Queue(), stored, stored + [put], d, e);
    CloseCache(c, heard, stored + [put]);
  }

  /** `cache_set` of a marker. */
  method Mark(c: Cache.Cache, clock: Clock, key: seq<byte>, data: seq<byte>, ttl: u32, ghost heard: seq<Heard>,
              ghost stored: seq<Stored>)
    returns (ghost put: Stored)
    requires CacheOk(c, heard, stored) && Marker(key)
    modifies c, c.x, clock
    ensures clock.n == old(clock.n) + 1 && put == Marked(key, data, ttl, clock.reading(old(clock.n)))
    ensures CacheOk(c, heard, stored + [put])
  {
    hide Backed, Cache.Cache.Valid, Recent, Cache.Total, Filings, Cache.Expiry, Marker;
    OpenCache(c, heard, stored);
    var now := clock.Now();
    put := Marked(key, data, ttl, now);
    ghost var q := c.Queue();
    ghost var d := c.Set(key, data, ttl, 0, now);
    HoldsNext(Room(c), stored, put, key, 0, q, c.Queue(), d);
    ghost var e := Entry(key, data, if ttl > 0 then Cache.Expiry(now, Cache.Clip(ttl)) else 0, 0);
    BackedSome(q, c.Queue(), stored, stored + [put], d, e);
    CloseCache(c, heard, stored + [put]);
  }

  /** A hit under the key of a type and a name reads as data told about the name. */
  lemma HitTold(heard: seq<Heard>, stored: seq<Stored>, k: nat, typ: seq<byte>, d: seq<byte>, data: seq<byte>,
                flag: byte)
    requires AllStored(heard, stored) && k < |stored| && |typ| == 2
             && Matches(Entry(KeyOf(typ, d), data, 0, flag), stored[k])
    ensures stored[k].Stored? && stored[k].typ == typ && Equal(stored[k].owner, d) && data == stored[k].data
    ensures ReadAll(LayoutOf(typ), data, 0) == stored[k].items
    ensures forall i :: 0 <= i < |stored[k].items| ==> Told(heard, d, typ, stored[k].items[i])
  {
    hide ToldBy, Told, IsName, Suffix, Lower, ReadAll, EncodeAll, AllFit, LayoutOf;
    var s := stored[k];
    assert StoredOk(heard, s);
    KeyParts(typ, d);
    KeyParts(s.typ, s.owner);
    ReadBack(LayoutOf(typ), s.items);
    forall i | 0 <= i < |s.items| ensures Told(heard, d, typ, s.items[i]) {
      SaysEqual(heard[s.h], s.owner, d, typ, s.items[i]);
      ToldNow(heard, s.h, d, typ, s.items[i]);
    }
  }

  lemma KeyParts(typ: seq<byte>, d: seq<byte>)
    requires |typ| == 2
    ensures KeyOf(typ, d)[..2] == typ && KeyOf(typ, d)[2..] == Lower(d)
  {
  }

  /** A hit under the key of a CNAME record is one name. */
  lemma HitAlias(heard: seq<Heard>, stored: seq<Stored>, k: nat, d: seq<byte>, data: seq<byte>, flag: byte)
    requires AllStored(heard, stored) && k < |stored| && Matches(Entry(KeyOf(T_CNAME, d), data, 0, flag), stored[k])
    ensures IsName(data) && |data| <= 255 && Told(heard, d, T_CNAME, [Domain(data)])
  {
    hide Told, ToldBy, Suffix, IsName, EncodeAll, AllFit, ReadAll, Lower;
    HitTold(heard, stored, k, T_CNAME, d, data, flag);
    var s := stored[k];
    assert StoredOk(heard, s);
    OneItem(s.items);
    assert Told(heard, d, T_CNAME, s.items[0]);
  }

  lemma OneItem(list: seq<seq<Item>>)
    requires AllFit(NameList, list) && |list| == 1
    ensures Named(list[0][0]) && EncodeAll(NameList, list) == list[0][0].d && list[0] == [Domain(list[0][0].d)]
  {
    assert list[..0] == [];
    assert EncodeAll(NameList, []) == [];
  }
}
