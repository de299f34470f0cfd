/**
`dqcache.c`: many queries under way at a time, which share the cache, the clock and the buffer of the
response. Whatever the order of clients and packets, no query disturbs another.
*/
module Server {
  import opened Bits
  import opened Names
  import opened Builder = Response
  import opened Reply
  import opened Provenance
  import Cache
  import opened Zones
  import opened Digest
  import opened Resolver

  /** A reply that was given: to a question, a chain of aliases and records. */
  datatype Given = Given(dn: seq<byte>, ask: seq<byte>, chain: seq<seq<byte>>, said: seq<Said>)

  /** The chain starts at the name asked, and all of it, and every record, was told or is local. */
  ghost predicate GivenOk(g: Settings, heard: seq<Heard>, x: Given)
  {
    x.chain != [] && x.chain[0] == x.dn && LinksTold(heard, x.chain) && AllGenuine(g, heard, x.said)
  }

  ghost predicate AllGiven(g: Settings, heard: seq<Heard>, given: seq<Given>)
  {
    forall k :: 0 <= k < |given| ==> GivenOk(g, heard, given[k])
  }

  lemma AllGivenGrows(g: Settings, heard: seq<Heard>, more: seq<Heard>, given: seq<Given>)
    requires heard <= more && AllGiven(g, heard, given)
    ensures AllGiven(g, more, given)
  {
    hide LinksTold, AllGenuine;
    forall k | 0 <= k < |given| ensures GivenOk(g, more, given[k]) {
      assert GivenOk(g, heard, given[k]);
      LinksGrow(heard, more, given[k].chain);
      GenuineGrows(g, heard, more, given[k].said);
    }
  }

  lemma GenuineGrows(g: Settings, heard: seq<Heard>, more: seq<Heard>, said: seq<Said>)
    requires heard <= more && AllGenuine(g, heard, said)
    ensures AllGenuine(g, more, said)
  {
    hide Told, Local;
    forall k | 0 <= k < |said| ensures Genuine(g, more, said[k].owner, said[k].typ, said[k].items) {
      assert Genuine(g, heard, said[k].owner, said[k].typ, said[k].items);
      if Told(heard, said[k].owner, said[k].typ, said[k].items) {
        ToldGrows(heard, more, said[k].owner, said[k].typ, said[k].items);
      }
    }
  }

  lemma OneMore(g: Settings, heard: seq<Heard>, given: seq<Given>, x: Given)
    requires AllGiven(g, heard, given) && GivenOk(g, heard, x)
    ensures AllGiven(g, heard, given + [x])
  {
    hide GivenOk;
  }

  /** A query that was not asked anything yet. */
  ghost predicate Idle(q: Query, c: Cache.Cache, k: Clock, r: Response, g: Settings)
    reads q
  {
    q.response == r && q.cache == c && q.clock == k && q.settings == g && q.Sized() && q.heard == []
  }

  class Server {
    const cache: Cache.Cache
    const clock: Clock
    const response: Response
    const settings: Settings
    const queries: seq<Query>
    var busy: seq<bool>
    ghost var calls: seq<nat>
    ghost var heard: seq<Heard>
    ghost var stored: seq<Stored>
    ghost var given: seq<Given>

    /** One of the queries; if it is busy, it waits for a packet, and `doit` was not called too often for it. */
    ghost predicate Member(i: nat)
      reads this, queries
      requires i < |queries| && |busy| == |queries| && |calls| == |queries|
    {
      var q := queries[i];
      && q.response == response && q.cache == cache && q.clock == clock && q.settings == settings
      && q.Sized() && q.heard <= heard && (busy[i] ==> q.Waiting() && calls[i] + q.Rank() <= 2500)
    }

    ghost predicate Distinct()
      reads this
    {
      forall i, j :: 0 <= i < j < |queries| ==> queries[i] != queries[j]
    }

    /** The parts all queries share are in order, every query is, and so is every reply given so far. */
    ghost predicate Valid()
      reads this, queries, response, cache, cache.x
    {
      && response.Sane() && CacheOk(cache, heard, stored) && cache.x != response.buf && HeardOk(settings, heard)
      && |busy| == |queries| && |calls| == |queries| && Distinct()
      && (forall i :: 0 <= i < |queries| ==> Member(i))
      && AllGiven(settings, heard, given)
    }

    /** A server with an empty cache and `n` queries, none of them under way. */
    constructor (n: nat, cachesize: int, siphash: seq<byte> -> u32, reading: nat -> nat, g: Settings, forward: bool,
                 minimum: u32, hideTtl: bool)
      requires minimum <= 300
      ensures Valid() && fresh(queries) && |queries| == n && settings == g && forall i :: 0 <= i < n ==> !busy[i]
      ensures heard == [] && stored == [] && given == []
    {
      hide CacheOk, AllStored, Query.Sized, Query.Waiting, Cache.Cache.Valid;
      var c := new Cache.Cache(cachesize, siphash);
      NothingKept();
      CloseCache(c, [], []);
      var r := new Response(hideTtl);
      var k := new Clock(reading);
      var qs: seq<Query> := [];
      while |qs| < n
        invariant |qs| <= n && fresh(qs) && r.Sane() && CacheOk(c, [], []) && c.x != r.buf
        invariant forall i :: 0 <= i < |qs| ==> Idle(qs[i], c, k, r, g)
        invariant forall i, j :: 0 <= i < j < |qs| ==> qs[i] != qs[j]
      {
        var q := new Query(r, c, k, g, forward, minimum, [], []);
        q.ShapeParts();
        qs := qs + [q];
      }
      cache, clock, response, settings, queries := c, k, r, g, qs;
      busy := seq(n, i => false);
      calls := seq(n, i => 0);
      heard, stored, given := [], [], [];
    }

    /** A client's question, such as lines 152-158: query `i` starts; if it was busy, that question is dropped. */
    method Ask(i: nat, dn: seq<byte>, typ: seq<byte>, class_: seq<byte>)
      returns (r: int, ghost chain: seq<seq<byte>>, ghost ttls: seq<u32>)
      requires Valid() && i < |queries| && IsName(dn) && |typ| == 2 && |class_| == 2
      modifies this, queries[i], response, response.buf, cache, cache.x, clock
      ensures Valid() && r in {-1, 0, 1} && old(heard) <= heard && old(stored) <= stored
      ensures busy == old(busy)[i := r == 0]
      ensures r == 0 ==> calls == old(calls)[i := 1] && queries[i].asked == dn && queries[i].qtype == typ
                         && queries[i].qclass == class_
      ensures if r == 1 then
                && chain != [] && chain[0] == dn
                && Answer(response, chain, ttls, queries[i].said, typ + class_, heard, settings)
                && given == old(given) + [Given(dn, typ + class_, chain, queries[i].said)]
              else given == old(given)
    {
      hide CacheOk, HeardOk, Query.Sized, Query.Waiting, Query.Goes, Query.Shape, Answer, Marks, AllGiven;
      var q := queries[i];
      assert Member(i);
      q.CatchUp(heard, stored);
      r, chain, ttls := q.Start(dn, typ, class_);
      forall j | 0 <= j < |queries| && j != i ensures Member(j) { assert old(Member(j)); }
      MarksOnly(stored, q.stored, clock.reading, old(clock.n), clock.n);
      Return(i, dn, typ + class_, r, chain, ttls, 1);
    }

    /** A packet or a failure for a query under way, lines 388-406. */
    method Get(i: nat) returns (r: int, ghost chain: seq<seq<byte>>, ghost ttls: seq<u32>)
      requires Valid() && i < |queries| && busy[i]
      modifies this, queries[i], response, response.buf, cache, cache.x, clock
      ensures Valid() && r in {-1, 0, 1} && old(heard) <= heard && old(stored) <= stored
      ensures old(calls)[i] < 2500 && busy == old(busy)[i := r == 0]
      ensures r == 0 ==> calls == old(calls)[i := old(calls)[i] + 1] && queries[i].asked == old(queries[i].asked)
                         && queries[i].qtype == old(queries[i].qtype) && queries[i].qclass == old(queries[i].qclass)
      ensures if r == 1 then
                var q := queries[i];
                && chain != [] && chain[0] == old(queries[i].asked)
                && Answer(response, chain, ttls, q.said, old(q.qtype + q.qclass), heard, settings)
                && given == old(given) + [Given(old(q.asked), old(q.qtype + q.qclass), chain, q.said)]
              else given == old(given)
    {
      hide CacheOk, HeardOk, Query.Sized, Query.Waiting, Query.Goes, Query.Shape, Answer, AllGiven;
      var q := queries[i];
      assert Member(i);
      q.CatchUp(heard, stored);
      r, chain, ttls := q.Await();
      forall j | 0 <= j < |queries| && j != i ensures Member(j) { assert old(Member(j)); }
      Return(i, q.asked, q.qtype + q.qclass, r, chain, ttls, calls[i] + 1);
    }

    /** What `doit` returned for query `i`: it waits again, or the client has its reply, or none. */
    method Return(i: nat, ghost dn: seq<byte>, ghost ask: seq<byte>, r: int, ghost chain: seq<seq<byte>>,
                  ghost ttls: seq<u32>, ghost n: nat)
      requires i < |queries| && |busy| == |queries| && |calls| == |queries| && Distinct()
      requires forall j :: 0 <= j < |queries| && j != i ==> Member(j)
      requires var q := queries[i];
               && q.response == response && q.cache == cache && q.clock == clock && q.settings == settings
               && q.Shape() && heard <= q.heard && stored <= q.stored
               && (r == 0 ==> q.Goes(SENT) && n + q.Rank() <= 2500)
               && (r == 1 ==> chain != [] && chain[0] == dn
                              && Answer(response, chain, ttls, q.said, ask, q.heard, settings))
      requires AllGiven(settings, heard, given)
      modifies `busy, `calls, `heard, `stored, `given
      ensures Valid() && heard == queries[i].heard && stored == queries[i].stored
      ensures busy == old(busy)[i := r == 0] && calls == old(calls)[i := n]
      ensures given == old(given) + if r == 1 then [Given(dn, ask, chain, queries[i].said)] else []
    {
      hide CacheOk, HeardOk, Query.Sized, Query.Waiting, Query.Goes, Query.Shape, Answer, AllGiven, GivenOk;
      var q := queries[i];
      q.ShapeParts();
      if r == 0 { q.Waits(); }
      AllGivenGrows(settings, heard, q.heard, given);
      ghost var more: seq<Given> := [];
      if r == 1 {
        more := [Given(dn, ask, chain, q.said)];
        AnswerGiven(response, chain, ttls, q.said, dn, ask, q.heard, settings);
        OneMore(settings, q.heard, given, more[0]);
      }
      assert given + more == if more == [] then given else given + [more[0]];
      heard, stored, given := q.heard, q.stored, given + more;
      busy, calls := busy[i := r == 0], calls[i := n];
      forall j | 0 <= j < |queries| ensures Member(j) {
        if j != i { assert old(Member(j)); }
      }
    }
  }

  lemma AnswerGiven(r: Response, chain: seq<seq<byte>>, ttls: seq<u32>, said: seq<Said>, dn: seq<byte>, ask: seq<byte>,
                    heard: seq<Heard>, g: Settings)
    requires Answer(r, chain, ttls, said, ask, heard, g) && chain != [] && chain[0] == dn
    ensures GivenOk(g, heard, Given(dn, ask, chain, said))
  {
    hide LinksTold, AllGenuine, Replying;
  }
}
