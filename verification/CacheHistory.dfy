/**
The cache over a run of calls: its queue is the newest of the entries that were ever set, and an entry is missing
only when the buffer had no room for it and those after it.
*/
module CacheHistory {
  import opened Bits
  import opened CacheList
  import Cache

  /** The entry a call of `cache_set` adds, if it is not ignored. */
  function Accepted(key: seq<byte>, data: seq<byte>, ttl: int, flags: byte, now: nat): seq<Entry>
  {
    if Cache.Rejected(key, data, ttl) then [] else [Entry(key, data, Cache.Expiry(now, Cache.Clip(ttl)), flags)]
  }

  /**
  Of the entries set, in order, the queue holds those from some place on. Those before it and the first
  that is gone together take more than the room for entries less the largest entry; the last is gone only if it
  is larger than the room.
  */
  ghost predicate Recent(room: int, es: seq<Entry>, q: seq<Entry>)
  {
    exists d :: 0 <= d <= |es| && Since(room, es, q, d)
  }

  ghost predicate Since(room: int, es: seq<Entry>, q: seq<Entry>, d: nat)
    requires d <= |es|
  {
    && q == es[d..] && (d > 0 ==> Cache.Total(es[d - 1..]) > room - Cache.MAXENTRY)
    && (es != [] && Len(es[|es| - 1]) <= room ==> d < |es|)
  }

  lemma RecentNone(room: int)
    ensures Recent(room, [], [])
  {
    assert Since(room, [], [], 0);
  }

  /** What `cache_set` does with an entry keeps this. */
  lemma RecentSet(room: int, es: seq<Entry>, a: seq<Entry>, b: seq<Entry>, e: Entry, d: nat)
    requires Recent(room, es, a) && d <= |a|
    requires if Len(e) > room then b == [] else b == a[d..] + [e]
    requires d > 0 ==> Cache.Total(a[d - 1..]) + Len(e) > room - Cache.MAXENTRY
    ensures Recent(room, es + [e], b)
  {
    hide Cache.Total, Len, Since;
    var d0: nat :| d0 <= |es| && Since(room, es, a, d0);
    if Len(e) > room {
      TooLarge(room, es, e);
    } else {
      Appended(room, es, a, e, d0, d);
    }
  }

  lemma TooLarge(room: int, es: seq<Entry>, e: Entry)
    requires Len(e) > room
    ensures Since(room, es + [e], [], |es| + 1)
  {
    var t := es + [e];
    assert t[|es|..] == [e] && t[|t|..] == [];
    TotalOne(e);
  }

  lemma Appended(room: int, es: seq<Entry>, a: seq<Entry>, e: Entry, d0: nat, d: nat)
    requires d0 <= |es| && Since(room, es, a, d0) && d <= |a|
    requires d > 0 ==> Cache.Total(a[d - 1..]) + Len(e) > room - Cache.MAXENTRY
    ensures d0 + d <= |es| && Since(room, es + [e], a[d..] + [e], d0 + d)
  {
    hide Cache.Total, Len;
    var t := es + [e];
    assert t[d0 + d..] == a[d..] + [e];
    if d > 0 {
      assert t[d0 + d - 1..] == a[d - 1..] + [e];
      Cache.TotalAppend(a[d - 1..], e);
    } else if d0 > 0 {
      assert t[d0 - 1..] == es[d0 - 1..] + [e];
      Cache.TotalAppend(es[d0 - 1..], e);
    }
  }

  lemma TotalOne(e: Entry)
    ensures Cache.Total([e]) == Len(e)
  {
    assert [e][1..] == [];
  }

  lemma TotalTail(es: seq<Entry>, i: nat, j: nat)
    requires i <= j <= |es|
    ensures Cache.Total(es[j..]) <= Cache.Total(es[i..])
  {
    assert es[i..] == es[i..j] + es[j..];
    Cache.TotalConcat(es[i..j], es[j..]);
  }

  /** An entry that fits is found by a lookup right after it was set. */
  lemma LastFound(room: int, es: seq<Entry>, q: seq<Placed>, now: nat)
    requires Recent(room, es, Cache.Entries(q)) && es != [] && Len(es[|es| - 1]) <= room
    ensures Cache.Find(q, es[|es| - 1].key, now) == Cache.Answer(es[|es| - 1], now)
  {
    hide Cache.Total, Len, Cache.Answer, Cache.Find, Cache.Entries;
    var all := Cache.Entries(q);
    var d: nat :| d <= |es| && Since(room, es, all, d);
    assert all == es[d..] && d < |es|;
    EntriesLast(q);
    var n := |q| - 1;
    assert q == q[..n] + [q[n]];
    Cache.FindNewest(q[..n], q[n], now);
  }

  lemma EntriesLast(q: seq<Placed>)
    ensures |Cache.Entries(q)| == |q| && (q != [] ==> Cache.Entries(q)[|q| - 1] == q[|q| - 1].e)
  {
  }

  /** Entries are still there while they and the newer ones take no more than the room less the largest entry. */
  lemma Remains(room: int, es: seq<Entry>, q: seq<Entry>, i: nat)
    requires Recent(room, es, q) && i <= |es| && Cache.Total(es[i..]) <= room - Cache.MAXENTRY
    ensures |es| - i <= |q| && q[|q| - (|es| - i)..] == es[i..]
  {
    hide Cache.Total;
    var d: nat :| d <= |es| && Since(room, es, q, d);
    if d > i { TotalTail(es, i, d - 1); }
  }

  /**
  Over any number of calls: the entry set last for a key answers a lookup of it if the newer entries leave it room
  and at most a hundred of them are in its bucket.
  */
  lemma Lasting(room: int, es: seq<Entry>, q: seq<Placed>, i: nat, now: nat)
    requires Recent(room, es, Cache.Entries(q)) && i < |es| && Cache.Total(es[i..]) <= room - Cache.MAXENTRY
    requires forall j :: i < j < |es| ==> es[j].key != es[i].key
    ensures var k := |q| - (|es| - i);
            0 <= k && q[k].e == es[i] && Cache.FindLast(Cache.Entries(q), es[i].key) == k
            && (Cache.InBucket(q[k + 1..], q[k].bucket) <= 100
                ==> Cache.Find(q, es[i].key, now) == Cache.Answer(es[i], now))
  {
    hide Cache.Total, Cache.Answer, Cache.InBucket, Cache.FindLast;
    var all := Cache.Entries(q);
    Remains(room, es, all, i);
    var k := |q| - (|es| - i);
    forall j | k <= j < |q| ensures all[j] == es[i + (j - k)] { assert all[j] == all[k..][j - k]; }
    assert all[k].key == es[i].key;
    LastIs(all, es[i].key, k);
  }

  lemma LastIs(q: seq<Entry>, key: seq<byte>, k: nat)
    requires k < |q| && q[k].key == key && forall j :: k < j < |q| ==> q[j].key != key
    ensures Cache.FindLast(q, key) == k
  {
    var i := Cache.FindLast(q, key);
  }
}
