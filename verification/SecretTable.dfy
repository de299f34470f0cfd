/**
The table of shared secrets of curvedns (`cache_hashtable.c`): entries in one array, linked into a
list of used ones in the order they were set, a list of unused ones, and one doubly linked list per
bucket, newest first. A pointer is an index into the array, or -1 for NULL.
*/
module SecretTable {
  import opened Bits
  import opened Wrappers

  datatype Entry = Entry(next: int, prev: int, nexttable: int, key: seq<byte>, value: seq<byte>)

  /** `cache_hash`, lines 41-50. */
  function Hash(key: seq<byte>): u32
  {
    if key == [] then 5381 else U32(Hash(key[..|key| - 1]) * 33 + key[|key| - 1])
  }

  function Bucket(key: seq<byte>, nb: nat): (h: nat)
    requires nb > 0
    ensures h < nb
  {
    Hash(key) % nb
  }

  // ----- positions with the same hash

  /** The last position before `k` with hash `h`, or -1. */
  function LastBefore(hs: seq<nat>, k: nat, h: nat): (j: int)
    requires k <= |hs|
    ensures -1 <= j < k && (j >= 0 ==> hs[j] == h) && forall i :: j < i < k ==> hs[i] != h
  {
    if k == 0 then -1 else if hs[k - 1] == h then k - 1 else LastBefore(hs, k - 1, h)
  }

  /** The first position from `k` on with hash `h`, or -1. */
  function FirstFrom(hs: seq<nat>, k: nat, h: nat): (j: int)
    requires k <= |hs|
    ensures j == -1 || (k <= j < |hs| && hs[j] == h)
    ensures forall i :: k <= i < (if j == -1 then |hs| else j) ==> hs[i] != h
    decreases |hs| - k
  {
    if k == |hs| then -1 else if hs[k] == h then k else FirstFrom(hs, k + 1, h)
  }

  function Older(hs: seq<nat>, k: nat): int
    requires k < |hs|
  {
    LastBefore(hs, k, hs[k])
  }

  function Newer(hs: seq<nat>, k: nat): int
    requires k < |hs|
  {
    FirstFrom(hs, k + 1, hs[k])
  }

  lemma OlderTail(hs: seq<nat>, k: nat, h: nat)
    requires 0 < k <= |hs|
    ensures LastBefore(hs[1..], k - 1, h) == if LastBefore(hs, k, h) <= 0 then -1 else LastBefore(hs, k, h) - 1
  {
    var t := hs[1..];
    var a, b := LastBefore(t, k - 1, h), LastBefore(hs, k, h);
    assert forall i :: 0 <= i < |t| ==> t[i] == hs[i + 1];
    if a >= 0 { assert hs[a + 1] == h; }
    if b >= 1 { assert t[b - 1] == h; }
  }

  lemma NewerTail(hs: seq<nat>, k: nat, h: nat)
    requires 0 < k <= |hs|
    ensures FirstFrom(hs[1..], k - 1, h) == if FirstFrom(hs, k, h) == -1 then -1 else FirstFrom(hs, k, h) - 1
  {
    var t := hs[1..];
    var a, b := FirstFrom(t, k - 1, h), FirstFrom(hs, k, h);
    assert forall i :: 0 <= i < |t| ==> t[i] == hs[i + 1];
    if a >= 0 { assert hs[a + 1] == h; }
    if b >= 1 { assert t[b - 1] == h; }
  }

  lemma OlderSnoc(hs: seq<nat>, h: nat, k: nat, g: nat)
    requires k <= |hs|
    ensures LastBefore(hs + [h], k, g) == LastBefore(hs, k, g)
  {
    var t := hs + [h];
    assert forall i :: 0 <= i < |hs| ==> t[i] == hs[i];
    var a, b := LastBefore(t, k, g), LastBefore(hs, k, g);
    assert a >= 0 ==> hs[a] == g;
    assert b >= 0 ==> t[b] == g;
  }

  lemma NewerSnoc(hs: seq<nat>, h: nat, k: nat, g: nat)
    requires k <= |hs|
    ensures FirstFrom(hs + [h], k, g) == if FirstFrom(hs, k, g) == -1 && g == h then |hs| else FirstFrom(hs, k, g)
  {
    var t := hs + [h];
    assert t[|hs|] == h;
    assert forall i :: 0 <= i < |hs| ==> t[i] == hs[i];
    var a, b := FirstFrom(t, k, g), FirstFrom(hs, k, g);
    if a != -1 && a < |hs| { assert hs[a] == g; }
    if b != -1 { assert t[b] == g; }
  }

  // ----- the representation

  function Ptr(used: seq<nat>, j: int): int
    requires j < |used|
  {
    if j < 0 then -1 else used[j]
  }

  function Head(s: seq<nat>): int { if s == [] then -1 else s[0] }

  function Last(s: seq<nat>): int { if s == [] then -1 else s[|s| - 1] }

  ghost predicate Apart(s: seq<nat>, n: nat)
  {
    (forall i :: 0 <= i < |s| ==> s[i] < n) && forall i, j :: 0 <= i < j < |s| ==> s[i] != s[j]
  }

  /** The table's list through `s`. */
  ghost predicate Listed(es: seq<Entry>, s: seq<nat>)
  {
    forall k :: 0 <= k < |s| ==> s[k] < |es| && es[s[k]].nexttable == Follow(s, k)
  }

  ghost function Follow(s: seq<nat>, k: nat): int { if k + 1 < |s| then s[k + 1] else -1 }

  ghost function Hashes(es: seq<Entry>, used: seq<nat>, nb: nat): (hs: seq<nat>)
    requires nb > 0 && forall k :: 0 <= k < |used| ==> used[k] < |es|
    ensures |hs| == |used| && forall k :: 0 <= k < |used| ==> hs[k] == Bucket(es[used[k]].key, nb)
  {
    seq(|used|, k requires 0 <= k < |used| => Bucket(es[used[k]].key, nb))
  }

  /** The links of the bucket lists, given the hashes of the used entries in order. */
  ghost predicate Chained(es: seq<Entry>, used: seq<nat>, hs: seq<nat>)
  {
    && |hs| == |used|
    && forall k :: 0 <= k < |used| ==> used[k] < |es| && ChainedAt(es[used[k]], used, hs, k)
  }

  ghost predicate ChainedAt(e: Entry, used: seq<nat>, hs: seq<nat>, k: nat)
    requires |hs| == |used| && k < |used|
  {
    e.next == Ptr(used, Older(hs, k)) && e.prev == Ptr(used, Newer(hs, k))
  }

  ghost predicate Buckets(buckets: seq<int>, used: seq<nat>, hs: seq<nat>)
    requires |hs| == |used|
  {
    forall h :: 0 <= h < |buckets| ==> buckets[h] == Ptr(used, LastBefore(hs, |hs|, h))
  }

  /** Oldest first, what the table holds. */
  ghost function Queue(es: seq<Entry>, used: seq<nat>): (q: seq<(seq<byte>, seq<byte>)>)
    requires forall k :: 0 <= k < |used| ==> used[k] < |es|
    ensures |q| == |used| && forall k :: 0 <= k < |used| ==> q[k] == (es[used[k]].key, es[used[k]].value)
  {
    seq(|used|, k requires 0 <= k < |used| => (es[used[k]].key, es[used[k]].value))
  }

  /** The value set last for a key. */
  ghost function Newest(q: seq<(seq<byte>, seq<byte>)>, key: seq<byte>): Option<seq<byte>>
  {
    if q == [] then None else if q[|q| - 1].0 == key then Some(q[|q| - 1].1) else Newest(q[..|q| - 1], key)
  }

  ghost predicate Disjoint(a: seq<nat>, b: seq<nat>)
  {
    forall i, j :: 0 <= i < |a| && 0 <= j < |b| ==> a[i] != b[j]
  }

  /** The lists of a table: used entries oldest first, unused ones, and `free` ones in neither list. */
  ghost predicate Lists(es: seq<Entry>, used: seq<nat>, unused: seq<nat>, free: seq<nat>)
  {
    && Apart(used, |es|) && Apart(unused, |es|) && Apart(free, |es|)
    && Disjoint(used, unused) && Disjoint(used, free) && Disjoint(unused, free)
    && |used| + |unused| + |free| == |es| && Listed(es, used) && Listed(es, unused)
  }

  /** The table as a whole. */
  ghost predicate Rep(es: seq<Entry>, buckets: seq<int>, used: seq<nat>, unused: seq<nat>, free: seq<nat>)
  {
    && |buckets| > 0 && Lists(es, used, unused, free) && (forall k :: 0 <= k < |used| ==> used[k] < |es|)
    && Chained(es, used, Hashes(es, used, |buckets|)) && Buckets(buckets, used, Hashes(es, used, |buckets|))
  }

  // ----- the oldest entry leaves

  /** Lines 160-165: the entry is the last of its bucket, so only its newer neighbour or the bucket points to it. */
  ghost function Unlinked(es: seq<Entry>, e: nat): seq<Entry>
    requires e < |es| && es[e].prev < |es|
  {
    if es[e].prev >= 0 then es[es[e].prev := es[es[e].prev].(next := -1)] else es
  }

  lemma EvictLists(es: seq<Entry>, es': seq<Entry>, used: seq<nat>, unused: seq<nat>)
    requires Lists(es, used, unused, []) && used != [] && |es'| == |es|
    requires forall i :: 0 <= i < |es| ==> es'[i].nexttable == es[i].nexttable
    ensures Lists(es', used[1..], unused, [used[0]])
  {
    var u := used[1..];
    assert forall k :: 0 <= k < |u| ==> u[k] == used[k + 1];
    forall k | 0 <= k < |u| ensures u[k] < |es'| && es'[u[k]].nexttable == Follow(u, k) {
      assert es[used[k + 1]].nexttable == Follow(used, k + 1);
    }
    ListedSame(es, es', unused);
  }

  lemma ListedSame(es: seq<Entry>, es': seq<Entry>, s: seq<nat>)
    requires Listed(es, s) && |es'| == |es| && forall k :: 0 <= k < |s| ==> es'[s[k]].nexttable == es[s[k]].nexttable
    ensures Listed(es', s)
  {
  }

  lemma EvictChained(es: seq<Entry>, used: seq<nat>, hs: seq<nat>)
    requires Chained(es, used, hs) && used != [] && Apart(used, |es|)
    ensures es[used[0]].next == -1 && es[used[0]].prev < |es| && Chained(Unlinked(es, used[0]), used[1..], hs[1..])
  {
    hide LastBefore, FirstFrom;
    var u, t, es' := used[1..], hs[1..], Unlinked(es, used[0]);
    assert ChainedAt(es[used[0]], used, hs, 0);
    forall k | 0 <= k < |u| ensures u[k] < |es'| && ChainedAt(es'[u[k]], u, t, k) {
      assert u[k] == used[k + 1] && t[k] == hs[k + 1];
      assert ChainedAt(es[used[k + 1]], used, hs, k + 1);
      EvictAt(es, used, hs, k + 1);
    }
  }

  lemma EvictAt(es: seq<Entry>, used: seq<nat>, hs: seq<nat>, k: nat)
    requires Apart(used, |es|) && |hs| == |used| && 0 < k < |used|
    requires ChainedAt(es[used[0]], used, hs, 0) && ChainedAt(es[used[k]], used, hs, k)
    ensures es[used[0]].prev < |es| && ChainedAt(Unlinked(es, used[0])[used[k]], used[1..], hs[1..], k - 1)
  {
    hide LastBefore, FirstFrom;
    var h, n := hs[k], Newer(hs, 0);
    assert hs[1..][k - 1] == h;
    OlderTail(hs, k, h);
    NewerTail(hs, k + 1, h);
    TailPtr(used, Newer(hs, k));
    TailPtr(used, Older(hs, k));
    OldestNeighbour(hs, k);
    UnlinkedAt(es, used, k, n);
  }

  lemma UnlinkedAt(es: seq<Entry>, used: seq<nat>, k: nat, n: int)
    requires Apart(used, |es|) && 0 < k < |used| && -1 <= n < |used| && es[used[0]].prev == Ptr(used, n)
    ensures es[used[0]].prev < |es| && Unlinked(es, used[0])[used[k]] == if n == k then es[used[k]].(next := -1)
                                                                         else es[used[k]]
  {
    if n >= 0 && n != k { assert used[n] != used[k]; }
  }

  lemma TailPtr(used: seq<nat>, j: int)
    requires used != [] && -1 <= j < |used|
    ensures j > 0 ==> Ptr(used[1..], j - 1) == Ptr(used, j)
  {
  }

  lemma OldestNeighbour(hs: seq<nat>, k: nat)
    requires 0 < k < |hs|
    ensures Older(hs, k) == 0 <==> Newer(hs, 0) == k
  {
  }

  lemma EvictBuckets(buckets: seq<int>, used: seq<nat>, hs: seq<nat>, prev: int)
    requires |hs| == |used| && used != [] && hs[0] < |buckets| && Buckets(buckets, used, hs)
             && prev == Ptr(used, Newer(hs, 0))
    ensures Buckets(if prev >= 0 then buckets else buckets[hs[0] := -1], used[1..], hs[1..])
  {
    var b := if prev >= 0 then buckets else buckets[hs[0] := -1];
    forall h | 0 <= h < |b| ensures b[h] == Ptr(used[1..], LastBefore(hs[1..], |hs| - 1, h)) {
      OlderTail(hs, |hs|, h);
      var l, n := LastBefore(hs, |hs|, h), Newer(hs, 0);
      assert buckets[h] == Ptr(used, l);
      TailPtr(used, l);
      assert l > 0 && h == hs[0] ==> n >= 0;
      assert n >= 0 ==> hs[n] == hs[0];
    }
  }

  lemma EvictRep(es: seq<Entry>, buckets: seq<int>, used: seq<nat>, unused: seq<nat>)
    requires Rep(es, buckets, used, unused, []) && used != []
    ensures var e := used[0];
            && es[e].next == -1 && es[e].prev < |es|
            && Rep(Unlinked(es, e),
                   if es[e].prev >= 0 then buckets else buckets[Bucket(es[e].key, |buckets|) := -1],
                   used[1..], unused, [e])
            && Queue(Unlinked(es, e), used[1..]) == Queue(es, used)[1..]
  {
    hide Chained, Buckets, Bucket;
    var e, nb, u := used[0], |buckets|, used[1..];
    var hs := Hashes(es, used, nb);
    EvictChained(es, used, hs);
    var es' := Unlinked(es, e);
    ChainedFirst(es, used, hs);
    EvictBuckets(buckets, used, hs, es[e].prev);
    EvictLists(es, es', used, unused);
    assert forall k :: 0 <= k < |u| ==> u[k] == used[k + 1];
    assert Hashes(es', u, nb) == hs[1..];
  }

  lemma ChainedFirst(es: seq<Entry>, used: seq<nat>, hs: seq<nat>)
    requires Chained(es, used, hs) && used != []
    ensures es[used[0]].prev == Ptr(used, Newer(hs, 0))
  {
    assert ChainedAt(es[used[0]], used, hs, 0);
  }

  /** Lines 169-170: the first unused entry is taken. */
  lemma TakeRep(es: seq<Entry>, buckets: seq<int>, used: seq<nat>, unused: seq<nat>)
    requires Rep(es, buckets, used, unused, []) && unused != []
    ensures Rep(es, buckets, used, unused[1..], [unused[0]]) && es[unused[0]].nexttable == Head(unused[1..])
  {
    hide Chained, Buckets, Hashes;
    var u := unused[1..];
    assert forall k :: 0 <= k < |u| ==> u[k] == unused[k + 1];
    assert es[unused[0]].nexttable == Follow(unused, 0);
    forall k | 0 <= k < |u| ensures u[k] < |es| && es[u[k]].nexttable == Follow(u, k) {
      assert es[unused[k + 1]].nexttable == Follow(unused, k + 1);
    }
  }

  // ----- a new entry joins

  /** Lines 176-191: the entries after `e` is filled in, put last in the table's list and first in its bucket. */
  ghost function Linked(es: seq<Entry>, e: nat, last: int, top: int, key: seq<byte>,
                        value: seq<byte>): (es': seq<Entry>)
    requires e < |es| && last < |es| && top < |es|
    ensures |es'| == |es|
  {
    var es1 := es[e := Entry(-1, -1, -1, key, value)];
    var es2 := if last >= 0 then es1[last := es1[last].(nexttable := e)] else es1;
    if top >= 0 then
      var es3 := es2[top := es2[top].(prev := e)];
      es3[e := es3[e].(next := top)]
    else es2
  }

  lemma LinkedNew(es: seq<Entry>, e: nat, last: int, top: int, key: seq<byte>, value: seq<byte>)
    requires e < |es| && last < |es| && top < |es| && last != e && top != e
    ensures Linked(es, e, last, top, key, value)[e] == Entry(if top >= 0 then top else -1, -1, -1, key, value)
  {
  }

  lemma LinkedOther(es: seq<Entry>, e: nat, last: int, top: int, key: seq<byte>, value: seq<byte>, i: nat)
    requires e < |es| && last < |es| && top < |es| && last != e && top != e && i < |es| && i != e
    ensures var x := Linked(es, e, last, top, key, value)[i];
            && x.key == es[i].key && x.value == es[i].value && x.next == es[i].next
            && x.nexttable == (if i == last then e else es[i].nexttable) && x.prev == if i == top then e else es[i].prev
  {
  }

  lemma LinkLists(es: seq<Entry>, used: seq<nat>, unused: seq<nat>, e: nat, top: int, key: seq<byte>, value: seq<byte>)
    requires Lists(es, used, unused, [e]) && top < |es| && top != e && Last(used) < |es| && e < |es| && Last(used) != e
    ensures Lists(Linked(es, e, Last(used), top, key, value), used + [e], unused, [])
  {
    hide Linked;
    var es', u, last := Linked(es, e, Last(used), top, key, value), used + [e], Last(used);
    LinkedNew(es, e, last, top, key, value);
    assert [e][0] == e;
    forall k | 0 <= k < |u| ensures u[k] < |es'| && es'[u[k]].nexttable == Follow(u, k) {
      if k < |used| {
        assert u[k] == used[k] && used[k] != [e][0];
        assert es[used[k]].nexttable == Follow(used, k);
        LinkedOther(es, e, last, top, key, value, used[k]);
        LastIs(used, |es|, k);
      }
    }
    forall k | 0 <= k < |unused| ensures es'[unused[k]].nexttable == es[unused[k]].nexttable {
      assert unused[k] != [e][0];
      LinkedOther(es, e, last, top, key, value, unused[k]);
      if used != [] { assert used[|used| - 1] != unused[k]; }
    }
    ListedSame(es, es', unused);
  }

  lemma LastIs(used: seq<nat>, n: nat, k: nat)
    requires Apart(used, n) && k < |used|
    ensures used[k] == Last(used) <==> k == |used| - 1
  {
  }

  lemma LinkChained(es: seq<Entry>, used: seq<nat>, hs: seq<nat>, e: nat, last: int, h: nat, key: seq<byte>,
                    value: seq<byte>)
    requires Apart(used, |es|) && Chained(es, used, hs) && e < |es| && Disjoint(used, [e]) && last < |es| && last != e
    ensures var top := Ptr(used, LastBefore(hs, |hs|, h));
            top < |es| && top != e && Chained(Linked(es, e, last, top, key, value), used + [e], hs + [h])
  {
    hide LastBefore, FirstFrom, Linked, ChainedAt;
    TopApart(used, hs, h, e, |es|);
    var top := Ptr(used, LastBefore(hs, |hs|, h));
    var es', u, t := Linked(es, e, last, top, key, value), used + [e], hs + [h];
    LinkNew(es, used, hs, e, last, h, key, value);
    forall k | 0 <= k < |u| ensures u[k] < |es'| && ChainedAt(es'[u[k]], u, t, k) {
      if k < |used| {
        assert u[k] == used[k];
        LinkOld(es, used, hs, e, last, h, key, value, k);
      }
    }
  }

  lemma TopApart(used: seq<nat>, hs: seq<nat>, h: nat, e: nat, n: nat)
    requires |hs| == |used| && Apart(used, n) && Disjoint(used, [e])
    ensures Ptr(used, LastBefore(hs, |hs|, h)) < n && Ptr(used, LastBefore(hs, |hs|, h)) != e
  {
    hide LastBefore;
    assert [e][0] == e;
    var l := LastBefore(hs, |hs|, h);
    assert l >= 0 ==> used[l] != [e][0];
  }

  lemma LinkNew(es: seq<Entry>, used: seq<nat>, hs: seq<nat>, e: nat, last: int, h: nat, key: seq<byte>,
                value: seq<byte>)
    requires Apart(used, |es|) && |hs| == |used| && e < |es| && Disjoint(used, [e]) && last < |es| && last != e
    requires Ptr(used, LastBefore(hs, |hs|, h)) < |es| && Ptr(used, LastBefore(hs, |hs|, h)) != e
    ensures ChainedAt(Linked(es, e, last, Ptr(used, LastBefore(hs, |hs|, h)), key, value)[e], used + [e], hs + [h],
                      |used|)
  {
    hide LastBefore, Linked;
    LinkedNew(es, e, last, Ptr(used, LastBefore(hs, |hs|, h)), key, value);
    OlderSnoc(hs, h, |hs|, h);
    assert (hs + [h])[|hs|] == h;
    assert FirstFrom(hs + [h], |hs| + 1, h) == -1;
  }

  lemma LinkOld(es: seq<Entry>, used: seq<nat>, hs: seq<nat>, e: nat, last: int, h: nat, key: seq<byte>,
                value: seq<byte>, k: nat)
    requires Apart(used, |es|) && e < |es| && Disjoint(used, [e]) && last < |es| && last != e && |hs| == |used|
             && k < |used|
    requires ChainedAt(es[used[k]], used, hs, k)
    ensures var top := Ptr(used, LastBefore(hs, |hs|, h));
            top < |es| && top != e && ChainedAt(Linked(es, e, last, top, key, value)[used[k]], used + [e], hs + [h], k)
  {
    hide LastBefore, FirstFrom, Linked;
    var l := LastBefore(hs, |hs|, h);
    var top := Ptr(used, l);
    assert [e][0] == e;
    assert used[k] != [e][0] && (l >= 0 ==> used[l] != [e][0]);
    LinkedOther(es, e, last, top, key, value, used[k]);
    OlderSnoc(hs, h, k, hs[k]);
    NewerSnoc(hs, h, k + 1, hs[k]);
    TopIsNewest(hs, k, h);
    assert l >= 0 ==> (used[k] == used[l] <==> k == l);
  }

  /** The top of a bucket is the one entry of the bucket with no newer neighbour. */
  lemma TopIsNewest(hs: seq<nat>, k: nat, h: nat)
    requires k < |hs|
    ensures LastBefore(hs, |hs|, h) == k <==> hs[k] == h && FirstFrom(hs, k + 1, hs[k]) == -1
  {
    var l := LastBefore(hs, |hs|, h);
    assert l >= 0 ==> hs[l] == h;
  }

  lemma LinkBuckets(buckets: seq<int>, used: seq<nat>, hs: seq<nat>, e: nat, h: nat)
    requires |hs| == |used| && h < |buckets| && Buckets(buckets, used, hs)
    ensures Buckets(buckets[h := e], used + [e], hs + [h])
  {
    hide LastBefore;
    var u, t := used + [e], hs + [h];
    forall g | 0 <= g < |buckets| ensures buckets[h := e][g] == Ptr(u, LastBefore(t, |t|, g)) {
      OlderSnoc(hs, h, |hs|, g);
      assert buckets[g] == Ptr(used, LastBefore(hs, |hs|, g));
      TopSnoc(hs, h, g);
    }
  }

  lemma TopSnoc(hs: seq<nat>, h: nat, g: nat)
    ensures LastBefore(hs + [h], |hs| + 1, g) == if g == h then |hs| else LastBefore(hs + [h], |hs|, g)
  {
    assert (hs + [h])[|hs|] == h;
  }

  lemma LinkRep(es: seq<Entry>, buckets: seq<int>, used: seq<nat>, unused: seq<nat>, e: nat, key: seq<byte>,
                value: seq<byte>)
    requires Rep(es, buckets, used, unused, [e])
    ensures var h := Bucket(key, |buckets|);
            && e < |es| && Last(used) < |es| && Last(used) != e && buckets[h] < |es| && buckets[h] != e
            && Rep(Linked(es, e, Last(used), buckets[h], key, value), buckets[h := e], used + [e], unused, [])
            && Queue(Linked(es, e, Last(used), buckets[h], key, value), used + [e]) == Queue(es, used) + [(key, value)]
  {
    hide Chained, Buckets, Linked, Bucket;
    var nb := |buckets|;
    var h, hs := Bucket(key, nb), Hashes(es, used, nb);
    assert [e][0] == e;
    assert used != [] ==> used[|used| - 1] != [e][0];
    BucketTop(buckets, used, hs, h);
    LinkChained(es, used, hs, e, Last(used), h, key, value);
    LinkLists(es, used, unused, e, buckets[h], key, value);
    LinkBuckets(buckets, used, hs, e, h);
    var es', u := Linked(es, e, Last(used), buckets[h], key, value), used + [e];
    LinkedNew(es, e, Last(used), buckets[h], key, value);
    forall k | 0 <= k < |used| ensures u[k] == used[k] && es'[u[k]].key == es[used[k]].key
      && es'[u[k]].value == es[used[k]].value {
      assert used[k] != [e][0];
      LinkedOther(es, e, Last(used), buckets[h], key, value, used[k]);
    }
    assert Hashes(es', u, nb) == hs + [h];
    assert Queue(es', u) == Queue(es, used) + [(key, value)];
  }

  lemma BucketTop(buckets: seq<int>, used: seq<nat>, hs: seq<nat>, h: nat)
    requires |hs| == |used| && Buckets(buckets, used, hs) && h < |buckets|
    ensures buckets[h] == Ptr(used, LastBefore(hs, |hs|, h))
  {
  }

  // ----- looking up

  lemma {:induction false} NewestBelow(q: seq<(seq<byte>, seq<byte>)>, key: seq<byte>, j: nat)
    requires j <= |q| && forall i :: j <= i < |q| ==> q[i].0 != key
    ensures Newest(q, key) == Newest(q[..j], key)
    decreases |q|
  {
    if j == |q| {
      assert q[..j] == q;
    } else {
      var n := |q| - 1;
      NewestBelow(q[..n], key, j);
      assert q[..n][..j] == q[..j];
    }
  }

  /** The walk of `cache_get` has passed everything in the bucket after position `j`. */
  ghost predicate Passed(es: seq<Entry>, used: seq<nat>, key: seq<byte>, h: nat, hs: seq<nat>, j: int)
    requires |hs| == |used|
  {
    && -1 <= j < |used| && (j >= 0 ==> hs[j] == h)
    && forall i :: j < i < |used| ==> used[i] < |es| && es[used[i]].key != key
  }

  lemma PassedStart(es: seq<Entry>, used: seq<nat>, key: seq<byte>, nb: nat, h: nat, hs: seq<nat>)
    requires nb > 0 && (forall k :: 0 <= k < |used| ==> used[k] < |es|) && hs == Hashes(es, used, nb)
             && h == Bucket(key, nb)
    ensures Passed(es, used, key, h, hs, LastBefore(hs, |hs|, h))
  {
    hide Bucket;
    var l := LastBefore(hs, |hs|, h);
    forall i | l < i < |used| ensures es[used[i]].key != key {
      assert hs[i] != h && hs[i] == Bucket(es[used[i]].key, nb);
    }
  }

  lemma PassedNext(es: seq<Entry>, used: seq<nat>, key: seq<byte>, nb: nat, h: nat, hs: seq<nat>, j: nat)
    requires nb > 0 && (forall k :: 0 <= k < |used| ==> used[k] < |es|) && hs == Hashes(es, used, nb)
             && h == Bucket(key, nb)
    requires j < |used| && Passed(es, used, key, h, hs, j) && es[used[j]].key != key
    ensures Passed(es, used, key, h, hs, Older(hs, j))
  {
    hide Bucket;
    var l := LastBefore(hs, j, h);
    forall i | l < i < |used| ensures es[used[i]].key != key {
      if i < j { assert hs[i] != h && hs[i] == Bucket(es[used[i]].key, nb); }
    }
  }

  lemma FoundNewest(es: seq<Entry>, used: seq<nat>, key: seq<byte>, h: nat, hs: seq<nat>, j: int)
    requires (forall k :: 0 <= k < |used| ==> used[k] < |es|) && |hs| == |used| && Passed(es, used, key, h, hs, j)
    requires j >= 0 ==> es[used[j]].key == key
    ensures Newest(Queue(es, used), key) == if j < 0 then None else Some(es[used[j]].value)
  {
    var q := Queue(es, used);
    forall i | j < i < |q| ensures q[i].0 != key { assert q[i] == (es[used[i]].key, es[used[i]].value); }
    NewestBelow(q, key, j + 1);
    if j >= 0 { assert q[..j + 1][j] == q[j] == (es[used[j]].key, es[used[j]].value); }
  }

  /** The walk of `cache_get` stands at position `j` of the used list. */
  ghost predicate Walk(es: seq<Entry>, buckets: seq<int>, used: seq<nat>, key: seq<byte>, j: int)
  {
    && |buckets| > 0 && (forall k :: 0 <= k < |used| ==> used[k] < |es|) && -1 <= j < |used|
    && Passed(es, used, key, Bucket(key, |buckets|), Hashes(es, used, |buckets|), j)
  }

  lemma WalkStart(es: seq<Entry>, buckets: seq<int>, used: seq<nat>, unused: seq<nat>, key: seq<byte>) returns (j: int)
    requires Rep(es, buckets, used, unused, [])
    ensures Walk(es, buckets, used, key, j) && buckets[Bucket(key, |buckets|)] == Ptr(used, j)
  {
    hide Lists, Chained, Bucket;
    var h, hs := Bucket(key, |buckets|), Hashes(es, used, |buckets|);
    j := LastBefore(hs, |hs|, h);
    PassedStart(es, used, key, |buckets|, h, hs);
  }

  lemma WalkNext(es: seq<Entry>, buckets: seq<int>, used: seq<nat>, unused: seq<nat>, key: seq<byte>, j: int)
    returns (j': int)
    requires Rep(es, buckets, used, unused, []) && Walk(es, buckets, used, key, j) && j >= 0 && es[used[j]].key != key
    ensures Walk(es, buckets, used, key, j') && j' < j && es[used[j]].next == Ptr(used, j')
  {
    hide Lists, Chained, Buckets, Bucket;
    var h, hs := Bucket(key, |buckets|), Hashes(es, used, |buckets|);
    j' := Older(hs, j);
    PassedNext(es, used, key, |buckets|, h, hs, j);
    ChainedNext(es, used, hs, j);
  }

  lemma WalkFound(es: seq<Entry>, buckets: seq<int>, used: seq<nat>, unused: seq<nat>, key: seq<byte>, j: int)
    requires Rep(es, buckets, used, unused, []) && Walk(es, buckets, used, key, j)
             && (j >= 0 ==> es[used[j]].key == key)
    ensures Newest(Queue(es, used), key) == if j < 0 then None else Some(es[used[j]].value)
  {
    hide Rep, Bucket;
    FoundNewest(es, used, key, Bucket(key, |buckets|), Hashes(es, used, |buckets|), j);
  }

  /** What `cache_set` does: it enters the secret, or it follows a NULL pointer. */
  datatype Outcome = Entered(entry: nat) | NullDereference

  class Table {
    var buckets: seq<int>
    var entries: seq<Entry>
    var headunused: int
    var headused: int
    var lastused: int
    var nrused: nat
    ghost var used: seq<nat>
    ghost var unused: seq<nat>

    ghost predicate Valid()
      reads this
    {
      && |entries| >= 1 && Rep(entries, buckets, used, unused, [])
      && headused == Head(used) && lastused == Last(used) && headunused == Head(unused) && nrused == |used|
    }

    /** Some list of used entries runs from the head to the tail the table has. */
    ghost predicate Represented()
      reads this
    {
      exists u, f :: Rep(entries, buckets, u, f, []) && headused == Head(u) && lastused == Last(u)
    }

    /** A table of one entry that both lists have lost. */
    ghost predicate Broken()
      reads this
    {
      && |entries| == 1 && |buckets| > 0 && headused == -1 && headunused == -1 && entries[0].next == -1
      && forall h :: 0 <= h < |buckets| ==> -1 <= buckets[h] <= 0
    }

    /** Oldest first, what was set and has not been forced out. */
    ghost function Contents(): seq<(seq<byte>, seq<byte>)>
      reads this
      requires Valid()
    {
      Queue(entries, used)
    }

    /** `cache_init`, lines 76-120, with valid sizes. */
    constructor (nrbuckets: nat, nrentries: nat)
      requires 1 <= nrbuckets <= nrentries
      ensures Valid() && Contents() == [] && |entries| == nrentries && |buckets| == nrbuckets
    {
      var es := seq(nrentries, i => Entry(-1, -1, -1, [], []));
      var i := 0;
      while i < nrentries - 1
        invariant 0 <= i <= nrentries - 1 && |es| == nrentries
        invariant forall k :: 0 <= k < nrentries ==> es[k].nexttable == if k < i then k + 1 else -1
      {
        es := es[i := es[i].(nexttable := i + 1)];
        i := i + 1;
      }
      entries, buckets := es, seq(nrbuckets, h => -1);
      headunused, headused, lastused, nrused := 0, -1, -1, 0;
      used, unused := [], seq(nrentries, k => k);
    }

    /** `cache_get`, lines 122-139: the entry set last for the key, if it is still there. */
    method Get(key: seq<byte>) returns (entry: int)
      requires Valid() || Broken()
      ensures -1 <= entry < |entries|
      ensures Valid() ==> (entry == -1 <==> Newest(Contents(), key).None?)
      ensures Valid() && entry >= 0 ==> Newest(Contents(), key) == Some(entries[entry].value)
      ensures entry >= 0 ==> nrused > 0 && entries[entry].key == key
      ensures Broken() && nrused > 0 && buckets[Bucket(key, |buckets|)] == 0 && entries[0].key == key ==> entry == 0
    {
      hide Rep, Queue, Hash;
      if Valid() { RepIndex(entries, buckets, used, unused, []); }
      if nrused == 0 {
        return -1;
      }
      var h := Hash(key) % |buckets|;
      entry := buckets[h];
      ghost var j: int;
      if Valid() { j := WalkStart(entries, buckets, used, unused, key); }
      while entry != -1
        invariant -1 <= entry < |entries|
        invariant Valid() ==> Walk(entries, buckets, used, key, j) && entry == Ptr(used, j)
        invariant !Valid() && entry == -1 ==> buckets[h] == -1 || entries[0].key != key
        decreases if Valid() then j else entry
      {
        if entries[entry].key == key {
          if Valid() { WalkFound(entries, buckets, used, unused, key, j); }
          return;
        }
        if Valid() { j := WalkNext(entries, buckets, used, unused, key, j); }
        entry := entries[entry].next;
      }
      if Valid() { WalkFound(entries, buckets, used, unused, key, j); }
    }

    /** Lines 157-165: the oldest entry is forced out; alone in the table, it is still the last used one. */
    method Evict() returns (entry: nat)
      requires Valid() && nrused >= |entries|
      modifies `headused, `entries, `buckets, `used
      ensures |entries| == old(|entries|) && |buckets| == old(|buckets|)
              && Rep(entries, buckets, used, unused, [entry]) && nrused == |used| + 1
      ensures Queue(entries, used) == old(Contents())[1..] && headused == Head(used)
      ensures |entries| == 1 <==> used == []
      ensures lastused == if used == [] then entry else Last(used)
    {
      hide Rep, Queue, Hash;
      RepIndex(entries, buckets, used, unused, []);
      EvictRep(entries, buckets, used, unused);
      EvictHead(entries, buckets, used, unused);
      entry := headused;
      headused := entries[headused].nexttable;
      if entries[entry].prev >= 0 {
        var prev := entries[entry].prev;
        entries := entries[prev := entries[prev].(next := -1)];
      } else {
        var h := Hash(entries[entry].key) % |buckets|;
        buckets := buckets[h := -1];
      }
      used := used[1..];
    }

    /** Lines 168-173: an unused entry is taken. */
    method Take() returns (entry: nat)
      requires Valid() && nrused < |entries|
      modifies `headused, `headunused, `nrused, `unused
      ensures Rep(entries, buckets, used, unused, [entry]) && nrused == |used| + 1 && headunused == Head(unused)
      ensures headused == Head(used + [entry])
    {
      hide Chained, Buckets, Hashes;
      assert unused != [];
      TakeRep(entries, buckets, used, unused);
      nrused := nrused + 1;
      entry := headunused;
      headunused := entries[headunused].nexttable;
      if headused == -1 {
        headused := entry;
      }
      unused := unused[1..];
    }

    /**
    `cache_set`, lines 141-197: the oldest entry makes room if the table is full. With two entries or
    more that leaves a used list, with one it does not, and no later call brings the list back.
    */
    method Set(key: seq<byte>, value: seq<byte>) returns (r: Outcome)
      requires Valid() || Broken()
      modifies this
      ensures |entries| == old(|entries|) && |buckets| == old(|buckets|)
      ensures (r.Entered? <==> old(Valid())) && (r.NullDereference? <==> old(Broken()))
      ensures r.Entered? ==> r.entry < |entries| && entries[r.entry].key == key && entries[r.entry].value == value
      ensures r.Entered? && old(nrused) < |entries| ==> Valid() && Contents() == old(Contents()) + [(key, value)]
      ensures r.Entered? && old(nrused) >= |entries| >= 2
              ==> Valid() && Contents() == old(Contents())[1..] + [(key, value)]
      ensures r.Entered? && old(nrused) >= |entries| ==> (Represented() <==> |entries| >= 2)
      ensures r.Entered? && old(nrused) >= |entries| == 1 ==> Broken() && nrused == 1
      ensures r.NullDereference? ==> entries == old(entries) && Broken()
    {
      hide Rep, Queue;
      if Valid() { RepIndex(entries, buckets, used, unused, []); }
      var entry: nat;
      if nrused >= |entries| {
        if headunused != -1 {
          assert false;
        }
        if headused == -1 {
          return NullDereference;
        }
        entry := Evict();
      } else {
        if headunused == -1 {
          return NullDereference;
        }
        entry := Take();
      }
      RepIndex(entries, buckets, used, unused, [entry]);
      assert [entry][0] == entry;
      ghost var single := lastused != Last(used);
      Join(entry, key, value);
      r := Entered(entry);
      if single {
        NoUsedList(entries, buckets, headused, lastused);
      } else {
        assert Valid();
      }
    }

    /** Lines 176-191: the entry is filled in and linked. */
    method Join(entry: nat, key: seq<byte>, value: seq<byte>)
      requires Rep(entries, buckets, used, unused, [entry]) && entry < |entries| && |buckets| > 0
      requires lastused == Last(used) || (|entries| == 1 && lastused == entry)
      requires forall k :: 0 <= k < |used| ==> used[k] < |entries|
      modifies `entries, `buckets, `lastused, `used
      ensures used == old(used) + [entry] && |entries| == old(|entries|) && |buckets| == old(|buckets|)
      ensures lastused == entry && (forall k :: 0 <= k < |used| ==> used[k] < |entries|)
      ensures old(lastused == Last(used)) ==> Rep(entries, buckets, used, unused, [])
      ensures old(lastused == Last(used)) ==> Queue(entries, used) == old(Queue(entries, used)) + [(key, value)]
      ensures old(lastused != Last(used))
              ==> entries[0].next == -1 && forall h :: 0 <= h < |buckets| ==> -1 <= buckets[h] <= 0
      ensures entries[entry].key == key && entries[entry].value == value
    {
      hide Rep, Queue, Hash;
      LinkRep(entries, buckets, used, unused, entry, key, value);
      RepIndex(entries, buckets, used, unused, [entry]);
      if used == [] { EmptyBuckets(entries, buckets, unused, [entry]); }
      ghost var es, last := entries, lastused;
      var h := Hash(key) % |buckets|;
      ghost var top := buckets[h];
      entries := entries[entry := Entry(-1, -1, -1, key, value)];
      if lastused >= 0 {
        entries := entries[lastused := entries[lastused].(nexttable := entry)];
      }
      lastused := entry;
      if buckets[h] >= 0 {
        entries := entries[buckets[h] := entries[buckets[h]].(prev := entry)];
        entries := entries[entry := entries[entry].(next := buckets[h])];
      }
      buckets := buckets[h := entry];
      assert entries == Linked(es, entry, last, top, key, value);
      used := used + [entry];
    }

    /** `cache_empty`, lines 199-226: every used entry is wiped and becomes the first unused one. */
    method Empty()
      requires Valid() || Broken()
      modifies this
      ensures |entries| == old(|entries|) && |buckets| == old(|buckets|) && nrused == 0
      ensures old(Valid()) ==> Valid() && Contents() == [] && Wiped(entries, old(used))
      ensures old(Broken()) ==> Broken() && entries == old(entries)
    {
      hide Rep, Lists, Wiped;
      if Valid() { RepLists(entries, buckets, used, unused); }
      WipeUsed();
      if old(Valid()) { EmptyRep(entries, |buckets|, unused); }
      buckets := seq(|buckets|, h => -1);
      headused, lastused, nrused := -1, -1, 0;
      used := [];
    }

    /** Lines 205-215. */
    method WipeUsed()
      requires headused == -1
               || (Lists(entries, used, unused, []) && headused == Head(used) && headunused == Head(unused))
      modifies `entries, `headunused, `unused
      ensures |entries| == old(|entries|)
              && (headused == -1 ==> entries == old(entries) && headunused == old(headunused))
      ensures old(Lists(entries, used, unused, []) && headused == Head(used) && headunused == Head(unused))
              ==> Lists(entries, [], unused, []) && headunused == Head(unused) && Wiped(entries, used)
    {
      hide Lists, Wiped;
      var entry := headused;
      ghost var rest, done := used, [];
      ghost var listed := Lists(entries, used, unused, []) && headused == Head(used) && headunused == Head(unused);
      WipedNone(entries);
      while entry != -1
        invariant |entries| == old(|entries|)
                  && (headused == -1 ==> entries == old(entries) && headunused == old(headunused) && entry == -1)
        invariant listed ==> Lists(entries, rest, unused, []) && entry == Head(rest) && headunused == Head(unused)
        invariant listed ==> done + rest == used && Wiped(entries, done)
        decreases |rest|
      {
        EmptyStep(entries, rest, unused);
        var tmpentry := entries[entry].nexttable;
        WipedNext(entries, done, rest[0], Head(unused));
        entries := entries[entry := Entry(-1, -1, headunused, ZEROS, ZEROS)];
        headunused := entry;
        entry := tmpentry;
        unused := [rest[0]] + unused;
        assert done + rest == done + [rest[0]] + rest[1..];
        done, rest := done + [rest[0]], rest[1..];
      }
      assert listed ==> rest == [] && done == used;
    }
  }

  /** Nothing of the keys and secrets is left. */
  ghost predicate Wiped(es: seq<Entry>, s: seq<nat>)
  {
    forall k :: 0 <= k < |s| ==> s[k] < |es| && es[s[k]].key == ZEROS && es[s[k]].value == ZEROS
  }

  lemma WipedNone(es: seq<Entry>)
    ensures Wiped(es, [])
  {
  }

  lemma WipedNext(es: seq<Entry>, s: seq<nat>, e: nat, next: int)
    requires Wiped(es, s) && e < |es|
    ensures Wiped(es[e := Entry(-1, -1, next, ZEROS, ZEROS)], s + [e])
  {
  }

  lemma EmptyRep(es: seq<Entry>, nb: nat, unused: seq<nat>)
    requires Lists(es, [], unused, []) && nb > 0
    ensures Rep(es, seq(nb, h => -1), [], unused, [])
  {
  }

  const ZEROS: seq<byte> := [0, 0, 0, 0, 0, 0, 0, 0, 0, 0, 0, 0, 0, 0, 0, 0, 0, 0, 0, 0, 0, 0, 0, 0, 0, 0, 0, 0, 0, 0,
                             0, 0]

  lemma RepLists(es: seq<Entry>, buckets: seq<int>, used: seq<nat>, unused: seq<nat>)
    requires Rep(es, buckets, used, unused, [])
    ensures |buckets| > 0 && Lists(es, used, unused, [])
  {
  }

  lemma EmptyStep(es: seq<Entry>, rest: seq<nat>, unused: seq<nat>)
    requires Lists(es, rest, unused, []) && rest != []
    ensures rest[0] < |es| && es[rest[0]].nexttable == Head(rest[1..])
    ensures Lists(es[rest[0] := Entry(-1, -1, Head(unused), ZEROS, ZEROS)], rest[1..], [rest[0]] + unused, [])
  {
    hide Apart, Disjoint, Listed;
    var e, n := rest[0], |es|;
    EmptyApart(rest, unused, n);
    EmptyListed(es, rest, unused);
    assert Disjoint(rest[1..], [])
           && Disjoint([e] + unused, []) by { NothingDisjoint(rest[1..]); NothingDisjoint([e] + unused); }
  }

  lemma NothingDisjoint(s: seq<nat>)
    ensures Disjoint(s, [])
  {
  }

  lemma EmptyApart(rest: seq<nat>, unused: seq<nat>, n: nat)
    requires Apart(rest, n) && Apart(unused, n) && Disjoint(rest, unused) && rest != []
    ensures Apart(rest[1..], n) && Apart([rest[0]] + unused, n) && Disjoint(rest[1..], [rest[0]] + unused)
  {
    var r, u := rest[1..], [rest[0]] + unused;
    assert forall k :: 0 <= k < |r| ==> r[k] == rest[k + 1];
    assert forall k :: 0 < k < |u| ==> u[k] == unused[k - 1];
  }

  lemma EmptyListed(es: seq<Entry>, rest: seq<nat>, unused: seq<nat>)
    requires Apart(rest, |es|) && Disjoint(rest, unused) && Listed(es, rest) && Listed(es, unused) && rest != []
    ensures rest[0] < |es| && es[rest[0]].nexttable == Head(rest[1..])
    ensures var es' := es[rest[0] := Entry(-1, -1, Head(unused), ZEROS, ZEROS)]; Listed(es', rest[1..])
                                                                                 && Listed(es', [rest[0]] + unused)
  {
    var e, r, u := rest[0], rest[1..], [rest[0]] + unused;
    var es' := es[e := Entry(-1, -1, Head(unused), ZEROS, ZEROS)];
    assert es[rest[0]].nexttable == Follow(rest, 0);
    forall k | 0 <= k < |r| ensures r[k] < |es'| && es'[r[k]].nexttable == Follow(r, k) {
      assert r[k] == rest[k + 1] && es[rest[k + 1]].nexttable == Follow(rest, k + 1);
    }
    forall k | 0 <= k < |u| ensures u[k] < |es'| && es'[u[k]].nexttable == Follow(u, k) {
      if k > 0 {
        assert u[k] == unused[k - 1] && e != unused[k - 1];
        assert es[unused[k - 1]].nexttable == Follow(unused, k - 1);
      }
    }
  }

  lemma EmptyBuckets(es: seq<Entry>, buckets: seq<int>, unused: seq<nat>, free: seq<nat>)
    requires Rep(es, buckets, [], unused, free)
    ensures forall h :: 0 <= h < |buckets| ==> buckets[h] == -1
  {
  }

  /** A list with a last entry has a first. */
  lemma NoUsedList(es: seq<Entry>, buckets: seq<int>, head: int, last: int)
    requires head == -1 && last >= 0
    ensures !exists u, f :: Rep(es, buckets, u, f, []) && head == Head(u) && last == Last(u)
  {
    hide Rep;
  }

  /**
  With one entry the second secret set is the last: the list of used entries ends before it, and the third
  call follows NULL.
  */
  method SingleEntryBreaks(keys: seq<seq<byte>>, values: seq<seq<byte>>)
    returns (r1: Outcome, r2: Outcome, head: int, nr: nat, r3: Outcome)
    requires |keys| == |values| == 3
    ensures r1 == r2 == Entered(0) && head == -1 && nr == 1 && r3 == NullDereference
  {
    hide Rep, Queue;
    var t := new Table(1, 1);
    r1 := t.Set(keys[0], values[0]);
    r2 := t.Set(keys[1], values[1]);
    head, nr := t.headused, t.nrused;
    r3 := t.Set(keys[2], values[2]);
  }

  /** Nor does `cache_empty` reach that secret: it stays in memory, and the table takes no other. */
  method SingleEntryKeepsSecret(keys: seq<seq<byte>>, values: seq<seq<byte>>)
    returns (key: seq<byte>, value: seq<byte>, nr: nat, r3: Outcome)
    requires |keys| == |values| == 3
    ensures key == keys[1] && value == values[1] && nr == 0 && r3 == NullDereference
  {
    hide Rep, Queue;
    var t := new Table(1, 1);
    var _ := t.Set(keys[0], values[0]);
    var _ := t.Set(keys[1], values[1]);
    t.Empty();
    key, value, nr := t.entries[0].key, t.entries[0].value, t.nrused;
    r3 := t.Set(keys[2], values[2]);
  }

  // ----- shared secrets

  /** Every value in the table is the secret of its key. */
  ghost predicate Honest(q: seq<(seq<byte>, seq<byte>)>, secret: seq<byte> -> Option<seq<byte>>)
  {
    forall i :: 0 <= i < |q| ==> secret(q[i].0) == Some(q[i].1)
  }

  lemma {:induction false} HonestNewest(q: seq<(seq<byte>, seq<byte>)>, secret: seq<byte> -> Option<seq<byte>>,
                                        key: seq<byte>)
    requires Honest(q, secret) && Newest(q, key).Some?
    ensures secret(key) == Newest(q, key)
  {
    var n := |q| - 1;
    if q[n].0 != key { HonestNewest(q[..n], secret, key); }
  }

  lemma HonestSet(q: seq<(seq<byte>, seq<byte>)>, q': seq<(seq<byte>, seq<byte>)>,
                  secret: seq<byte> -> Option<seq<byte>>, key: seq<byte>, value: seq<byte>)
    requires Honest(q, secret) && secret(key) == Some(value)
             && (q' == q + [(key, value)] || (q != [] && q' == q[1..] + [(key, value)]))
    ensures Honest(q', secret)
  {
    forall i | 0 <= i < |q'| ensures secret(q'[i].0) == Some(q'[i].1) {
      if i < |q'| - 1 { assert q'[i] in q; }
    }
  }

  /**
  `dnscurve_get_shared_secret`, lines 48-79 of `dnscurve.c`, for the secret computed by `secret`: with
  or without the table, the packet gets the secret of its public key.
  */
  method GetSharedSecret(t: Table, secret: seq<byte> -> Option<seq<byte>>, ispublic: bool, shared: seq<byte>)
    returns (r: int, ispublic': bool, shared': seq<byte>)
    requires t.Valid() && |t.entries| >= 2 && Honest(t.Contents(), secret)
    modifies t
    ensures t.Valid() && |t.entries| == old(|t.entries|) && Honest(t.Contents(), secret)
    ensures !ispublic ==> r == 1 && !ispublic' && shared' == shared
    ensures ispublic && secret(shared).Some? ==> r in {2, 3} && !ispublic' && shared' == secret(shared).value
    ensures ispublic && secret(shared).None? ==> r == -1 && ispublic' && shared' == shared
    ensures r == 2 <==> ispublic && Newest(old(t.Contents()), shared).Some?
  {
    hide Honest, Rep;
    if !ispublic { return 1, false, shared; }
    var e := t.Get(shared);
    if e >= 0 {
      HonestNewest(t.Contents(), secret, shared);
      return 2, false, t.entries[e].value;
    }
    var s := secret(shared);
    if s.None? { return -1, true, shared; }
    ghost var q := t.Contents();
    var _ := t.Set(shared, s.value);
    assert |q| == old(t.nrused);
    HonestSet(q, t.Contents(), secret, shared, s.value);
    return 3, false, s.value;
  }

  /** `cache_init` of `cache_hashtable.c`, lines 76-120, with the allocations succeeding. */
  method CacheInit(nrbuckets: int, nrentries: int) returns (t: Option<Table>)
    ensures t.Some? <==> 1 <= nrbuckets <= nrentries
    ensures t.Some? ==> fresh(t.value) && t.value.Valid() && t.value.Contents() == [] && |t.value.entries| == nrentries
                        && |t.value.buckets| == nrbuckets
  {
    if nrbuckets < 1 || nrentries < 1 || nrentries < nrbuckets { return None; }
    var table := new Table(nrbuckets, nrentries);
    return Some(table);
  }

  /** `dnscurve_init`, lines 81-102: between 5 and 500 buckets, and at least as many entries. */
  method DnscurveInit(secrets: nat) returns (t: Option<Table>)
    ensures t.None? <==> secrets < 5
    ensures t.Some? ==> fresh(t.value) && t.value.Valid() && t.value.Contents() == [] && |t.value.entries| == secrets
                        && 5 <= |t.value.buckets| <= 500
  {
    var slots := secrets / 25;
    if slots < 5 { slots := 5; } else if slots > 500 { slots := 500; }
    t := CacheInit(slots, secrets);
  }

  lemma EvictHead(es: seq<Entry>, buckets: seq<int>, used: seq<nat>, unused: seq<nat>)
    requires Rep(es, buckets, used, unused, []) && |used| >= 1
    ensures es[used[0]].nexttable == Head(used[1..])
  {
    assert es[used[0]].nexttable == Follow(used, 0);
  }

  lemma RepIndex(es: seq<Entry>, buckets: seq<int>, used: seq<nat>, unused: seq<nat>, free: seq<nat>)
    requires Rep(es, buckets, used, unused, free)
    ensures |buckets| > 0 && (forall k :: 0 <= k < |used| ==> used[k] < |es|) && |used| + |unused| + |free| == |es|
    ensures forall k :: 0 <= k < |free| ==> free[k] < |es|
  {
  }

  lemma ChainedNext(es: seq<Entry>, used: seq<nat>, hs: seq<nat>, j: nat)
    requires Chained(es, used, hs) && j < |used|
    ensures used[j] < |es| && es[used[j]].next == Ptr(used, Older(hs, j))
  {
    assert ChainedAt(es[used[j]], used, hs, j);
  }
}
