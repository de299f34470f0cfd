/**
`cache_dump` and `cache_load` of `dq/cache.c` (lines 248-339): the entries are written oldest first and read back
with `cache_set`. With the clock held still, loading the dump into a fresh cache of the same size restores the queue
of unexpired entries. Of any other file the loop takes the records one after another, too; it need not end.
*/
module CacheFile {
  import opened Bits
  import opened Bytes
  import opened CacheList
  import opened CacheRep
  import opened Cache
  import opened CacheHistory

  /** Lines 263-264: internal entries are marked by the types AXFR and ANY. */
  predicate Internal(two: seq<byte>) { two == [0, 252] || two == [0, 255] }

  /** The two bytes looked at, some perhaps behind the buffer. */
  function Seen(m: seq<byte>, p: nat, after: seq<byte>): seq<byte>
    requires |after| == 2
  {
    ((if p <= |m| then m[p..] else []) + after)[..2]
  }

  /** The type that starts the key of an entry, as the keys of the resolver do. */
  function Front(e: Entry): seq<byte>
    requires |e.key| + |e.data| >= 2
  {
    (e.key + e.data)[..2]
  }

  /** Which of the entries are written: those that are not seen to be internal. */
  function Written(m: seq<byte>, q: seq<Placed>, after: seq<byte>): (w: seq<bool>)
    requires |after| == 2
    ensures |w| == |q|
  {
    seq(|q|, i requires 0 <= i < |q| => !Internal(Seen(m, q[i].pos + 20, after)))
  }

  /** What is seen is the type; only for an entry of fewer than two bytes it is what stands behind it in memory. */
  ghost predicate ByType(q: seq<Entry>, w: seq<bool>)
  {
    |w| == |q| && forall i :: 0 <= i < |q| && |q[i].key| + |q[i].data| >= 2 ==> (w[i] <==> !Internal(Front(q[i])))
  }

  ghost predicate Sound(e: Entry)
  {
    && |e.key| <= MAXKEYLEN && |e.data| <= MAXDATALEN && e.expire < 0x100_0000_0000_0000
  }

  ghost predicate AllSound(q: seq<Entry>) { forall i :: 0 <= i < |q| ==> Sound(q[i]) }

  function KeptOf(q: seq<Entry>, w: seq<bool>): seq<Entry>
    requires |w| == |q|
  {
    if q == [] then [] else var n := |q| - 1; KeptOf(q[..n], w[..n]) + if w[n] then [q[n]] else []
  }

  /** An entry loaded at `now` expires within a week. */
  function Renewed(e: Entry, now: nat): Entry { e.(expire := if e.expire > now + WEEK then now + WEEK else e.expire) }

  /** The unexpired entries, as they are loaded. */
  function Live(q: seq<Entry>, now: nat): seq<Entry>
  {
    if q == [] then [] else Live(q[..|q| - 1], now) + if q[|q| - 1].expire > now then [Renewed(q[|q| - 1], now)] else []
  }

  function Unexpired(q: seq<Entry>, now: nat): seq<Entry>
  {
    if q == [] then [] else Unexpired(q[..|q| - 1], now) + if q[|q| - 1].expire > now then [q[|q| - 1]] else []
  }

  /** If the clock did not run backwards, no entry expires later than in a week, and the entries come back unchanged. */
  lemma {:induction false} LiveUnchanged(q: seq<Entry>, now: nat)
    requires forall i :: 0 <= i < |q| ==> q[i].expire <= now + WEEK
    ensures Live(q, now) == Unexpired(q, now)
  {
    if q != [] { LiveUnchanged(q[..|q| - 1], now); }
  }

  /** The bytes of a dump. */
  function FileOf(q: seq<Entry>): seq<byte>
    requires AllSound(q)
  {
    if q == [] then [] else FileOf(q[..|q| - 1]) + Payload(q[|q| - 1])
  }

  lemma {:induction false} KeptSound(q: seq<Entry>, w: seq<bool>)
    requires AllSound(q) && |w| == |q|
    ensures AllSound(KeptOf(q, w))
  {
    if q != [] { KeptSound(q[..|q| - 1], w[..|q| - 1]); }
  }

  lemma KeptSnoc(q: seq<Entry>, w: seq<bool>, e: Entry, kept: bool)
    requires |w| == |q|
    ensures KeptOf(q + [e], w + [kept]) == KeptOf(q, w) + if kept then [e] else []
  {
    assert (q + [e])[..|q|] == q && (w + [kept])[..|q|] == w;
  }

  lemma FileSnoc(q: seq<Entry>, e: Entry)
    requires AllSound(q) && Sound(e)
    ensures AllSound(q + [e]) && FileOf(q + [e]) == FileOf(q) + Payload(e)
  {
    assert (q + [e])[..|q|] == q;
  }

  /** The dump of entry `i` of the queue. */
  lemma DumpStep(q: seq<Placed>, i: nat, w: seq<bool>, kept: bool)
    requires i < |q| && AllSound(Entries(q)) && |w| == i
    ensures AllSound(KeptOf(Entries(q[..i]), w)) && AllSound(KeptOf(Entries(q[..i + 1]), w + [kept]))
    ensures FileOf(KeptOf(Entries(q[..i + 1]), w + [kept]))
            == FileOf(KeptOf(Entries(q[..i]), w)) + if kept then Payload(q[i].e) else []
  {
    hide KeptOf, FileOf, Payload;
    var a, e := Entries(q[..i]), q[i].e;
    assert Entries(q)[i] == e;
    assert AllSound(a) by { assert a == Entries(q)[..i]; }
    assert Entries(q[..i + 1]) == a + [e];
    KeptSound(a, w);
    KeptSnoc(a, w, e, kept);
    if kept {
      FileSnoc(KeptOf(a, w), e);
    } else {
      assert KeptOf(a, w) + [] == KeptOf(a, w);
    }
  }

  /** Stepping over entry `i` of either run leads to the next entry or to the end of the run. */
  lemma NextEntry(s: Store, q: seq<Placed>, k: nat, i: nat)
    requires Runs(s, q, k) && i < |q|
    ensures i + 1 == k ==> q[i].pos + Size(q[i]) == s.unused
    ensures i + 1 != k && i + 1 < |q| ==> q[i].pos + Size(q[i]) == q[i + 1].pos
    ensures i + 1 == |q| && i + 1 != k ==> q[i].pos + Size(q[i]) == s.writer
    ensures i < k ==> q[i].pos < s.unused
    ensures i >= k ==> q[i].pos < s.writer
  {
    assert i < k ==> q[i].pos + Size(q[i]) <= s.unused;
    assert i >= k ==> q[i].pos + Size(q[i]) <= s.writer;
    if i + 1 < |q| && i + 1 != k {
      var j := i + 1;
      assert q[j].pos == q[i].pos + Size(q[i]);
    }
  }

  lemma StoredOf(s: Store, q: seq<Placed>, k: nat, i: nat)
    requires Rep(s, q, k) && i < |q|
    ensures Stored(s.m, q[i], Link(q, i))
  {
    hide Word, Link, Payload, Stored;
  }

  lemma KeyBytes(s: Store, q: seq<Placed>, k: nat, i: nat)
    requires Rep(s, q, k) && i < |q|
    ensures q[i].pos + Size(q[i]) <= |s.m| && s.m[q[i].pos + 4..q[i].pos + Size(q[i])] == Payload(q[i].e)
    ensures Word(s.m, q[i].pos + 4) == |q[i].e.key| && Word(s.m, q[i].pos + 8) == |q[i].e.data|
  {
    hide Word, Link, Payload, Rep;
    StoredOf(s, q, k, i);
    StoredLengths(s.m, q[i], Link(q, i));
    StoredParts(s.m, q[i], Link(q, i));
  }

  /** An entry of two bytes or more is seen by its type. */
  lemma TypeSeen(s: Store, q: seq<Placed>, k: nat, i: nat, after: seq<byte>)
    requires Rep(s, q, k) && i < |q| && |after| == 2
    ensures |q[i].e.key| + |q[i].e.data| >= 2 ==> Seen(s.m, q[i].pos + 20, after) == Front(q[i].e)
  {
    hide Word, Link, Payload, Rep, Seen, Front;
    KeyBytes(s, q, k, i);
    StoredOf(s, q, k, i);
    StoredParts(s.m, q[i], Link(q, i));
    if |q[i].e.key| + |q[i].e.data| >= 2 { FrontBytes(s.m, q[i].pos + 20, q[i].e, after); }
  }

  lemma FrontBytes(m: seq<byte>, p: nat, e: Entry, after: seq<byte>)
    requires var n, d := |e.key|, |e.data|; n + d >= 2 && p + n + d <= |m| && m[p..p + n] == e.key
                                            && m[p + n..p + n + d] == e.data
    requires |after| == 2
    ensures Seen(m, p, after) == Front(e)
  {
    var n, d := |e.key|, |e.data|;
    assert m[p..p + n + d] == e.key + e.data;
    SliceSlice(m, p, p + n + d, 0, 2);
    assert Seen(m, p, after) == m[p..p + 2];
  }

  /** The loop body of lines 262-269 and 273-280: one entry is appended unless it is internal. */
  method DumpEntry(c: Cache, pos: u32, out: seq<byte>, after: seq<byte>, ghost i: nat)
    returns (out': seq<byte>, len: u32, ghost kept: bool)
    requires c.Valid() && i < |c.q| && pos == c.q[i].pos && |after| == 2
    requires |c.q[i].e.key| <= MAXKEYLEN && |c.q[i].e.data| <= MAXDATALEN
    ensures kept <==> !Internal(Seen(c.x[..], pos + 20, after))
    ensures out' == out + if kept then Payload(c.q[i].e) else []
    ensures 4 + len == Size(c.q[i])
  {
    hide Rep, Hashed, Word, Payload, U32, Seen;
    KeyBytes(c.S(), c.q, c.k, i);
    Bounds(c.S(), c.q, c.k);
    Exact(pos + 4);
    Exact(pos + 8);
    var a := c.Get4(U32(pos + 4));
    var b := c.Get4(U32(pos + 8));
    Exact(a + b);
    Exact(a + b + 16);
    len := U32(U32(a + b) + 16);
    out', kept := out, false;
    var two := Seen(c.x[..], pos + 20, after);
    if two != [0, 252] {
      if two != [0, 255] {
        out', kept := out + c.x[pos + 4..pos + 4 + len], true;
      }
    }
  }

  lemma RunsOf(s: Store, q: seq<Placed>, k: nat)
    requires Rep(s, q, k)
    ensures Runs(s, q, k)
  {
  }

  lemma DumpStart(q: seq<Placed>)
    ensures KeptOf(Entries(q[..0]), []) == [] && FileOf([]) == []
  {
    assert Entries(q[..0]) == [];
  }

  /** `cache_dump`: the entries of the queue in order, without those seen to be internal. */
  method Dump(c: Cache, after: seq<byte>) returns (out: seq<byte>)
    requires c.Valid() && |after| == 2
    ensures var w := Written(c.x[..], c.q, after);
            ByType(c.Queue(), w) && AllSound(KeptOf(c.Queue(), w)) && out == FileOf(KeptOf(c.Queue(), w))
  {
    hide Rep, Runs, Hashed, KeptOf, FileOf, AllSound, Written, ByType;
    ghost var s, q, k := c.S(), c.q, c.k;
    ValidSound(c);
    RunsOf(s, q, k);
    DumpStart(q);
    SoundStart();
    RunEnds(s, q, k);
    WrittenNone(s.m, q, after);
    out := DumpRun(c, c.oldest, c.unused, [], 0, k, after);
    out := DumpRun(c, c.hsize, c.writer, out, k, |q|, after);
    assert q[..|q|] == q;
    TypesSeen(s, q, k, after);
  }

  lemma WrittenNone(m: seq<byte>, q: seq<Placed>, after: seq<byte>)
    requires |after| == 2
    ensures Written(m, q[..0], after) == []
  {
  }

  lemma WrittenNext(m: seq<byte>, q: seq<Placed>, i: nat, after: seq<byte>)
    requires i < |q| && |after| == 2
    ensures Written(m, q[..i + 1], after) == Written(m, q[..i], after) + [!Internal(Seen(m, q[i].pos + 20, after))]
  {
    hide Internal, Seen;
    assert forall j :: 0 <= j < i ==> q[..i + 1][j] == q[..i][j];
  }

  lemma TypesSeen(s: Store, q: seq<Placed>, k: nat, after: seq<byte>)
    requires Rep(s, q, k) && |after| == 2
    ensures ByType(Entries(q), Written(s.m, q, after))
  {
    hide Rep, Internal, Seen, Front;
    var es, w := Entries(q), Written(s.m, q, after);
    forall i | 0 <= i < |q| && |es[i].key| + |es[i].data| >= 2 ensures w[i] <==> !Internal(Front(es[i])) {
      TypeSeen(s, q, k, i, after);
    }
  }

  /** What is written of the first `n` entries. */
  ghost predicate Dumped(m: seq<byte>, q: seq<Placed>, n: nat, after: seq<byte>, out: seq<byte>)
    requires n <= |q| && |after| == 2
  {
    var es := KeptOf(Entries(q[..n]), Written(m, q[..n], after)); AllSound(es) && out == FileOf(es)
  }

  lemma DumpedNext(m: seq<byte>, q: seq<Placed>, i: nat, after: seq<byte>, out: seq<byte>, kept: bool)
    requires i < |q| && |after| == 2 && AllSound(Entries(q)) && Dumped(m, q, i, after, out) && Sound(q[i].e)
    requires kept <==> !Internal(Seen(m, q[i].pos + 20, after))
    ensures Dumped(m, q, i + 1, after, out + if kept then Payload(q[i].e) else [])
  {
    hide KeptOf, FileOf, AllSound, Entries, Written, Internal, Seen, Payload;
    DumpStep(q, i, Written(m, q[..i], after), kept);
    WrittenNext(m, q, i, after);
  }

  /** Lines 261-270 and 271-281: one run of entries, from entry `i0` of the queue up to entry `i1`. */
  method DumpRun(c: Cache, start: u32, end: u32, out0: seq<byte>, ghost i0: nat, ghost i1: nat, after: seq<byte>)
    returns (out: seq<byte>)
    requires c.Valid() && AllSound(c.Queue()) && |after| == 2
    requires (i0 == 0 && i1 == c.k && end == c.unused) || (i0 == c.k && i1 == |c.q| && end == c.writer)
    requires i0 <= i1 <= |c.q| && (if i0 < i1 then start == c.q[i0].pos else start == end)
    requires Dumped(c.x[..], c.q, i0, after, out0)
    ensures Dumped(c.x[..], c.q, i1, after, out)
  {
    hide Rep, Runs, Hashed, AllSound, U32, Entries, TableSize, Internal, Seen, Dumped, Payload;
    ghost var s, q, k := c.S(), c.q, c.k;
    RunsOf(s, q, k);
    Bounds(s, q, k);
    out := out0;
    var len: u32, pos := 0, start;
    ghost var i: nat, kept := i0, false;
    while pos < end
      invariant i0 <= i <= i1 && (if i < i1 then pos == q[i].pos else pos == end)
      invariant Dumped(s.m, q, i, after, out)
      decreases i1 - i
    {
      SoundAt(q, i);
      NextEntry(s, q, k, i);
      ghost var was := out;
      out, len, kept := DumpEntry(c, pos, out, after, i);
      DumpedNext(s.m, q, i, after, was, kept);
      Exact(pos + 4 + len);
      pos := U32(pos + 4 + len);
      i := i + 1;
    }
    if i < i1 { NextEntry(s, q, k, i); }
    assert i == i1;
  }

  lemma SoundStart()
    ensures AllSound([])
  {
  }

  lemma SoundAt(q: seq<Placed>, i: nat)
    requires i < |q| && AllSound(Entries(q))
    ensures Sound(q[i].e)
  {
    assert Entries(q)[i] == q[i].e;
  }

  lemma RunEnds(s: Store, q: seq<Placed>, k: nat)
    requires Runs(s, q, k)
    ensures k <= |q|
    ensures if k == 0 then s.oldest == s.unused else s.oldest == q[0].pos
    ensures if k == |q| then s.writer == s.hsize else q[k].pos == s.hsize
  {
  }

  // ----- cache_load

  lemma {:induction false} FileConcat(a: seq<Entry>, b: seq<Entry>)
    requires AllSound(a) && AllSound(b)
    ensures AllSound(a + b) && FileOf(a + b) == FileOf(a) + FileOf(b)
    decreases |b|
  {
    hide FileOf, Payload, Sound;
    if b == [] {
      assert a + b == a;
      NoFile();
      assert FileOf(a) + [] == FileOf(a);
    } else {
      var n := |b| - 1;
      var c, e := b[..n], b[n];
      FileConcat(a, c);
      FileConcatStep(a, c, e);
      assert a + b == (a + c) + [e];
      assert b == c + [e];
    }
  }

  lemma NoFile()
    ensures FileOf([]) == []
  {
  }

  lemma FileConcatStep(a: seq<Entry>, c: seq<Entry>, e: Entry)
    requires AllSound(a) && AllSound(c) && AllSound(a + c) && Sound(e) && FileOf(a + c) == FileOf(a) + FileOf(c)
    ensures AllSound(c + [e]) && AllSound(a + c + [e]) && FileOf(a + c + [e]) == FileOf(a) + FileOf(c + [e])
  {
    hide FileOf, Payload;
    FileSnoc(a + c, e);
    FileSnoc(c, e);
    var x, y, z := FileOf(a), FileOf(c), Payload(e);
    assert x + y + z == x + (y + z);
  }

  /** The record of entry `i` in the file. */
  lemma RecordAt(es: seq<Entry>, i: nat)
    requires AllSound(es) && i < |es|
    ensures AllSound(es[..i]) && AllSound(es[..i + 1])
    ensures |FileOf(es[..i + 1])| == |FileOf(es[..i])| + Len(es[i]) - 4
    ensures |FileOf(es[..i + 1])| <= |FileOf(es)|
    ensures FileOf(es)[|FileOf(es[..i])|..|FileOf(es[..i + 1])|] == Payload(es[i])
  {
    hide Payload;
    var a, b := es[..i], es[i + 1..];
    assert es[..i + 1] == a + [es[i]] && es == es[..i + 1] + b;
    FileSnoc(a, es[i]);
    FileConcat(es[..i + 1], b);
  }

  /** Lines 322-335: one record of the file. */
  lemma RecordParts(f: seq<byte>, pos: nat, e: Entry)
    requires Sound(e) && pos + Len(e) - 4 <= |f| && f[pos..pos + Len(e) - 4] == Payload(e)
    ensures Unpack32(f, pos) == |e.key| && Unpack32(f, pos + 4) == |e.data|
    ensures f[pos + 8..pos + 15] == ToLe(e.expire, 7) && f[pos + 15] == e.flags
    ensures f[pos + 16..pos + 16 + |e.key|] == e.key
    ensures f[pos + 16 + |e.key|..pos + 16 + |e.key| + |e.data|] == e.data
  {
    hide Payload, ToLe, Unpack32, Pack32;
    var n, l := |e.key|, Len(e) - 4;
    PayloadLengths(e);
    PayloadParts(e);
    SliceSlice(f, pos, pos + l, 0, 4);
    SliceSlice(f, pos, pos + l, 4, 8);
    SliceSlice(f, pos, pos + l, 8, 15);
    SliceSlice(f, pos, pos + l, 15, 16);
    SliceSlice(f, pos, pos + l, 16, 16 + n);
    SliceSlice(f, pos, pos + l, 16 + n, l);
    WordOf(f, pos);
    WordOf(f, pos + 4);
    UnpackPack32(n);
    UnpackPack32(|e.data|);
    assert f[pos + 15..pos + 16][0] == f[pos + 15];
  }

  lemma {:induction false} LiveTotal(es: seq<Entry>, now: nat)
    ensures Total(Live(es, now)) <= Total(es)
  {
    if es != [] {
      var n := |es| - 1;
      LiveTotal(es[..n], now);
      assert es == es[..n] + [es[n]];
      TotalAppend(es[..n], es[n]);
      if es[n].expire > now {
        TotalAppend(Live(es[..n], now), Renewed(es[n], now));
      } else {
        assert Live(es[..n], now) + [] == Live(es[..n], now);
      }
    }
  }

  lemma {:induction false} KeptTotal(es: seq<Entry>, w: seq<bool>)
    requires |w| == |es|
    ensures Total(KeptOf(es, w)) <= Total(es)
  {
    if es != [] {
      var n := |es| - 1;
      KeptTotal(es[..n], w[..n]);
      assert es == es[..n] + [es[n]];
      TotalAppend(es[..n], es[n]);
      if w[n] {
        TotalAppend(KeptOf(es[..n], w[..n]), es[n]);
      } else {
        assert KeptOf(es[..n], w[..n]) + [] == KeptOf(es[..n], w[..n]);
      }
    }
  }

  lemma SetRestores(e: Entry, now: nat)
    requires now < e.expire && now + WEEK < 0x100_0000_0000_0000
    ensures Expiry(now, Clip(e.expire - now)) == Renewed(e, now).expire
  {
  }

  /** A cache that never wrapped around: all free space lies between the newest entry and the end of the buffer. */
  ghost predicate FirstLap(c: Cache)
    reads c, c.x
  {
    c.Valid() && c.oldest == c.unused == c.size
  }

  lemma WriterIs(c: Cache)
    requires FirstLap(c)
    ensures c.writer == c.hsize + Total(c.Queue())
  {
    TotalRuns(c.S(), c.q, c.k);
  }

  /** Files in which 32-bit positions suffice, even behind an entry; dumps have at most 3000000000 bytes. */
  predicate Mapped(f: seq<byte>) { |f| <= 0xffff_ffff - MAXENTRY }

  /** Where line 333 leads from the record at `pos`; the sum is one of 32-bit words. */
  function Ahead(f: seq<byte>, pos: nat): u32
    requires pos + 16 <= |f|
  {
    U32(pos + 16 + Unpack32(f, pos) + Unpack32(f, pos + 4))
  }

  /** The tests of lines 321 and 329: there is one more record, and it seems to be all there. */
  predicate More(f: seq<byte>, pos: nat) { pos + 16 <= |f| && Ahead(f, pos) <= |f| }

  /** The entry the record at `pos` adds to a cache with room, if `cache_set` does not ignore it. */
  function Handed(f: seq<byte>, pos: nat, now: nat): seq<Entry>
    requires Mapped(f) && More(f, pos)
  {
    var n, d, a, t := Unpack32(f, pos), Unpack32(f, pos + 4), pos + 16, Le(f[pos + 8..pos + 15]);
    if n <= MAXKEYLEN && d <= MAXDATALEN && t > now then
      [Renewed(Entry(f[a..a + n], f[a + n..a + n + d], t, f[pos + 15]), now)]
    else
      []
  }

  /** Where the loop stands after `n` rounds. */
  function PosAfter(f: seq<byte>, n: nat): (pos: nat)
    ensures pos <= |f|
  {
    if n == 0 then 0 else var p := PosAfter(f, n - 1); if More(f, p) then Ahead(f, p) else p
  }

  /** What it has loaded until then. */
  function Loaded(f: seq<byte>, n: nat, now: nat): seq<Entry>
    requires Mapped(f)
  {
    if n == 0 then [] else
    var p := PosAfter(f, n - 1);
    Loaded(f, n - 1, now) + if More(f, p) then Handed(f, p, now) else []
  }

  /** The loop is left when its tests are made for the `n`-th time, or before. */
  predicate Ends(f: seq<byte>, n: nat) { n > 0 && !More(f, PosAfter(f, n - 1)) }

  /** Once the loop is left, nothing changes. */
  lemma {:induction false} Stopped(f: seq<byte>, n: nat, m: nat, now: nat)
    requires Mapped(f) && n <= m && !More(f, PosAfter(f, n))
    ensures PosAfter(f, m) == PosAfter(f, n) && Loaded(f, m, now) == Loaded(f, n, now)
    decreases m
  {
    if n < m {
      Stopped(f, n, m - 1, now);
      assert Loaded(f, n, now) + [] == Loaded(f, n, now);
    }
  }

  lemma {:induction false} MoreBefore(f: seq<byte>, n: nat, m: nat)
    requires n <= m && More(f, PosAfter(f, m))
    ensures More(f, PosAfter(f, n))
    decreases m
  {
    if n < m { MoreBefore(f, n, m - 1); }
  }

  /** Of `n + 1` numbers below `n` two are equal. */
  lemma {:induction false} Pigeons(s: seq<nat>, n: nat)
    requires |s| > n && forall i :: 0 <= i < |s| ==> s[i] < n
    ensures exists i, j :: 0 <= i < j < |s| && s[i] == s[j]
  {
    assert s[0] < n;
    if i, j :| 0 <= i < j < |s| && s[i] == n - 1 == s[j] {
    } else if i :| 0 <= i < |s| && s[i] == n - 1 {
      var t := s[..i] + s[i + 1..];
      assert forall k :: 0 <= k < |t| ==> t[k] == s[if k < i then k else k + 1];
      Pigeons(t, n - 1);
      var a, b :| 0 <= a < b < |t| && t[a] == t[b];
      assert s[if a < i then a else a + 1] == s[if b < i then b else b + 1];
    } else {
      Pigeons(s, n - 1);
    }
  }

  /** A position that comes round again comes round for ever. */
  lemma {:induction false} Circles(f: seq<byte>, i: nat, j: nat, n: nat)
    requires i < j && PosAfter(f, i) == PosAfter(f, j) && More(f, PosAfter(f, i))
    requires forall k :: 0 <= k < j ==> More(f, PosAfter(f, k))
    ensures exists k :: 0 <= k < j && PosAfter(f, n) == PosAfter(f, k)
    decreases n
  {
    if n >= j {
      Circles(f, i, j, n - 1);
      var k :| 0 <= k < j && PosAfter(f, n - 1) == PosAfter(f, k);
      assert PosAfter(f, n) == PosAfter(f, k + 1);
    }
  }

  /** Two rounds at the same position, neither of them the last. */
  ghost predicate ComesRound(f: seq<byte>, i: nat, j: nat)
  {
    i < j && PosAfter(f, i) == PosAfter(f, j) && More(f, PosAfter(f, i))
  }

  lemma RoundForEver(f: seq<byte>, i: nat, j: nat, n: nat)
    requires ComesRound(f, i, j)
    ensures !Ends(f, n)
  {
    if n > 0 {
      forall k | 0 <= k < j ensures More(f, PosAfter(f, k)) { MoreBefore(f, k, j); }
      Circles(f, i, j, n - 1);
    }
  }

  lemma SomeRound(f: seq<byte>)
    requires !Ends(f, |f| + 2)
    ensures exists i, j :: 0 <= i < j <= |f| + 1 && ComesRound(f, i, j)
  {
    var s := seq(|f| + 2, i requires i >= 0 => PosAfter(f, i));
    Pigeons(s, |f| + 1);
    var i, j :| 0 <= i < j < |s| && s[i] == s[j];
    MoreBefore(f, i, |f| + 1);
    assert ComesRound(f, i, j);
  }

  /** Loading ends, for any file, exactly if no position comes round again. */
  lemma LoadEnds(f: seq<byte>)
    ensures (exists n :: Ends(f, n)) <==> forall i, j :: 0 <= i < j <= |f| + 1 ==> !ComesRound(f, i, j)
  {
    if i, j :| 0 <= i < j <= |f| + 1 && ComesRound(f, i, j) {
      forall n ensures !Ends(f, n) { RoundForEver(f, i, j, n); }
    }
    if !Ends(f, |f| + 2) { SomeRound(f); }
  }

  /** No sum of lengths on the way exceeds 32 bits. */
  ghost predicate Straight(f: seq<byte>)
  {
    forall n :: var p := PosAfter(f, n); More(f, p) ==> p < Ahead(f, p)
  }

  /** If no sum wraps, every round comes further. */
  lemma {:induction false} Forward(f: seq<byte>, n: nat)
    requires Straight(f) && More(f, PosAfter(f, n))
    ensures n <= PosAfter(f, n)
  {
    if n > 0 {
      MoreBefore(f, n - 1, n);
      Forward(f, n - 1);
    }
  }

  lemma StraightEnds(f: seq<byte>)
    requires Straight(f)
    ensures Ends(f, |f| + 1)
  {
    if More(f, PosAfter(f, |f|)) { Forward(f, |f|); }
  }

  /** Loading the sixteen bytes of one record whose lengths make the 32-bit sum zero does not end. */
  lemma NeverEnds(rest: seq<byte>, n: nat)
    requires |rest| == 8
    ensures !Ends([240, 255, 255, 255, 0, 0, 0, 0] + rest, n)
  {
    var f: seq<byte> := [240, 255, 255, 255, 0, 0, 0, 0] + rest;
    assert Unpack32(f, 0) == 0xffff_fff0 && Unpack32(f, 4) == 0;
    assert PosAfter(f, 0) == 0 && PosAfter(f, 1) == 0;
    RoundForEver(f, 0, 1, n);
  }

  /** The effect of one call of `cache_set` with an entry, or with none if it is ignored. */
  ghost predicate Took(a: seq<Entry>, b: seq<Entry>, d: nat, room: int, more: seq<Entry>)
  {
    d <= |a|
    && if more == [] then b == a && d == 0
       else && |more| == 1 && (if Len(more[0]) > room then b == [] else b == a[d..] + more)
            && (d > 0 ==> Total(a[d - 1..]) + Len(more[0]) > room - MAXENTRY)
  }

  lemma SetTook(a: seq<Entry>, b: seq<Entry>, d: nat, room: int, key: seq<byte>, data: seq<byte>, ttl: nat, flags: byte,
                now: nat)
    requires Settled(a, b, d, room, key, data, ttl, flags, now)
    requires |key| <= MAXKEYLEN && |data| <= MAXDATALEN && ttl > 0 && now + WEEK < 0x100_0000_0000_0000
    ensures var e := Renewed(Entry(key, data, ttl + now, flags), now);
            Took(a, b, d, room, [e]) && (d == 0 && Len(e) <= room ==> b == a + [e])
  {
    hide Total, Expiry;
    SetRestores(Entry(key, data, ttl + now, flags), now);
    assert a[0..] == a;
  }

  /** `cache_set` with an entry that is not ignored; in a cache with room that never wrapped around nothing leaves. */
  method Put(c: Cache, key: seq<byte>, data: seq<byte>, ttl: nat, flags: byte, now: nat) returns (ghost d: nat)
    requires c.Valid() && |key| <= MAXKEYLEN && |data| <= MAXDATALEN
    requires ttl > 0 && now + WEEK < 0x100_0000_0000_0000
    modifies c, c.x
    ensures c.Valid() && c.size == old(c.size) && c.hsize == old(c.hsize)
    ensures var e := Renewed(Entry(key, data, ttl + now, flags), now);
            && Took(old(c.Queue()), c.Queue(), d, c.size - c.hsize, [e])
            && (old(FirstLap(c)) && Total(old(c.Queue()) + [e]) <= c.size - c.hsize
                ==> FirstLap(c) && c.Queue() == old(c.Queue()) + [e])
  {
    hide Rep, Hashed, TableSize, Total, Expiry, Settled, Took;
    ghost var e, was, lap := Renewed(Entry(key, data, ttl + now, flags), now), c.Queue(), FirstLap(c);
    if lap { LapRoom(c, e); }
    d := c.Set(key, data, ttl, flags, now);
    SetTook(was, c.Queue(), d, c.size - c.hsize, key, data, ttl, flags, now);
    if lap && Total(was + [e]) <= c.size - c.hsize { LapFits(c, was, e); }
  }

  lemma TookNothing(q: seq<Entry>, room: int)
    ensures Took(q, q, 0, room, [])
  {
  }

  /** The record is all there unless `cache_set` ignores it. */
  lemma HandedOver(f: seq<byte>, pos: nat, now: nat)
    requires Mapped(f) && More(f, pos) && Le(f[pos + 8..pos + 15]) > now
    ensures var n, d, a, more := Unpack32(f, pos), Unpack32(f, pos + 4), pos + 16, Handed(f, pos, now);
            if n <= MAXKEYLEN && d <= MAXDATALEN then
              a + n + d <= |f| && more == [Renewed(Entry(f[a..a + n], f[a + n..a + n + d],
                                                         Le(f[pos + 8..pos + 15]), f[pos + 15]), now)]
            else more == []
  {
    hide Unpack32, Le, Renewed;
  }

  /** What lines 322-327 read of the record at `p`. */
  ghost predicate RecordRead(f: seq<byte>, p: nat, keylen: u32, datalen: u32, ttl: int, flags: byte, now: nat)
  {
    && Mapped(f) && More(f, p) && keylen == Unpack32(f, p) && datalen == Unpack32(f, p + 4)
    && ttl == Le(f[p + 8..p + 15]) - now && flags == f[p + 15]
  }

  /** Line 331, with `more` for the entry. */
  method LoadEntry(c: Cache, f: seq<byte>, pos: u32, keylen: u32, datalen: u32, ttl: nat, flags: byte, now: nat,
                   ghost p: nat, ghost more: seq<Entry>)
    returns (ghost d: nat)
    requires c.Valid() && ttl > 0 && now + WEEK < 0x100_0000_0000_0000
    requires RecordRead(f, p, keylen, datalen, ttl, flags, now) && pos == p + 16 && more == Handed(f, p, now)
    modifies c, c.x
    ensures c.Valid() && c.size == old(c.size) && c.hsize == old(c.hsize)
    ensures Took(old(c.Queue()), c.Queue(), d, c.size - c.hsize, more)
    ensures old(FirstLap(c)) && Total(old(c.Queue()) + more) <= c.size - c.hsize
            ==> FirstLap(c) && c.Queue() == old(c.Queue()) + more
  {
    hide Cache.Valid, FirstLap, Total, Unpack32, Renewed, More, Ahead, Handed, Took, Le;
    HandedOver(f, p, now);
    if keylen <= MAXKEYLEN && datalen <= MAXDATALEN {
      d := Put(c, f[pos..pos + keylen], f[pos + keylen..pos + keylen + datalen], ttl, flags, now);
    } else {
      d := 0;
      assert more == [] && c.Queue() + more == c.Queue();
      TookNothing(c.Queue(), c.size - c.hsize);
    }
  }

  lemma LapFits(c: Cache, was: seq<Entry>, e: Entry)
    requires Total(was + [e]) <= c.size - c.hsize
    ensures Len(e) <= c.size - c.hsize
  {
    TotalAppend(was, e);
  }

  lemma LapRoom(c: Cache, e: Entry)
    requires FirstLap(c)
    ensures c.oldest == c.unused == c.size && c.writer + Len(e) == c.hsize + Total(c.Queue() + [e])
  {
    WriterIs(c);
    TotalAppend(c.Queue(), e);
  }

  /** What one round does to what the cache holds of everything set. */
  lemma RecentTook(room: int, es: seq<Entry>, a: seq<Entry>, b: seq<Entry>, d: nat, more: seq<Entry>)
    requires Recent(room, es, a) && Took(a, b, d, room, more)
    ensures Recent(room, es + more, b)
  {
    hide Recent, Total;
    if more == [] {
      assert es + more == es;
    } else {
      assert more == [more[0]];
      RecentSet(room, es, a, b, more[0], d);
    }
  }

  lemma LoadedNext(f: seq<byte>, n: nat, now: nat, es: seq<Entry>)
    requires Mapped(f) && More(f, PosAfter(f, n))
    ensures var more := Handed(f, PosAfter(f, n), now);
            && Loaded(f, n + 1, now) == Loaded(f, n, now) + more
            && es + Loaded(f, n, now) + more == es + Loaded(f, n + 1, now)
    ensures Total(Loaded(f, n, now)) <= Total(Loaded(f, n + 1, now))
  {
    hide More, Ahead, Handed;
    TotalConcat(Loaded(f, n, now), Handed(f, PosAfter(f, n), now));
  }

  /**
  `cache_load`, for any file: the first `rounds` rounds of its loop, or all of them, and whether it was left. The
  queue is the newest of what was set before and the entries of the file; into an empty cache with room for all,
  exactly those are loaded.
  */
  method Load(c: Cache, f: seq<byte>, now: nat, rounds: nat, ghost es: seq<Entry>) returns (ended: bool)
    requires c.Valid() && Mapped(f) && now + WEEK < 0x100_0000_0000_0000 && Recent(c.size - c.hsize, es, c.Queue())
    modifies c, c.x
    ensures c.Valid() && c.size == old(c.size) && c.hsize == old(c.hsize)
    ensures ended <==> Ends(f, rounds)
    ensures Recent(c.size - c.hsize, es + Loaded(f, rounds, now), c.Queue())
    ensures old(FirstLap(c) && c.Queue() == []) && Total(Loaded(f, rounds, now)) <= c.size - c.hsize
            ==> FirstLap(c) && c.Queue() == Loaded(f, rounds, now)
  {
    hide FirstLap, Total, U32, Unpack32, Recent, Took, Handed, Loaded, PosAfter, Rep, Hashed, TableSize;
    ghost var lap := FirstLap(c) && c.Queue() == [];
    var n, pos: u32 := 0, 0;
    LoadStart(f, now, es);
    Exact(16);
    while n < rounds && U32(pos + 16) <= |f|
      invariant n <= rounds && pos == PosAfter(f, n) && (n > 0 ==> More(f, PosAfter(f, n - 1)))
      invariant U32(pos + 16) == pos + 16
      invariant c.Valid() && c.size == old(c.size) && c.hsize == old(c.hsize)
      invariant Recent(c.size - c.hsize, es + Loaded(f, n, now), c.Queue())
      invariant lap && Total(Loaded(f, n, now)) <= c.size - c.hsize ==> FirstLap(c) && c.Queue() == Loaded(f, n, now)
      decreases rounds - n
    {
      var keylen := Unpack32(f, pos);
      var datalen := Unpack32(f, pos + 4);
      var flags := f[pos + 15];
      var ttl := Le(f[pos + 8..pos + 15]) - now;
      pos := U32(pos + 16);
      if U32(pos + keylen + datalen) > |f| {
        assert !More(f, PosAfter(f, n));
        break;
      }
      assert More(f, pos - 16);
      LoadedNext(f, n, now, es);
      ghost var q, d := c.Queue(), 0;
      if ttl > 0 {
        d := LoadEntry(c, f, pos, keylen, datalen, ttl, flags, now, pos - 16, Handed(f, pos - 16, now));
      } else {
        NotHanded(f, pos - 16, now, q, c.size - c.hsize);
      }
      RecentTook(c.size - c.hsize, es + Loaded(f, n, now), q, c.Queue(), d, Handed(f, pos - 16, now));
      pos := U32(pos + keylen + datalen);
      PosNext(f, n);
      Exact(pos + 16);
      n := n + 1;
    }
    ended := n < rounds;
    if ended {
      Stopped(f, n, rounds, now);
      Stopped(f, n, rounds - 1, now);
    }
  }

  lemma LoadStart(f: seq<byte>, now: nat, es: seq<Entry>)
    requires Mapped(f)
    ensures PosAfter(f, 0) == 0 && Loaded(f, 0, now) == [] && es + Loaded(f, 0, now) == es
  {
  }

  lemma PosNext(f: seq<byte>, n: nat)
    requires More(f, PosAfter(f, n))
    ensures PosAfter(f, n + 1) == Ahead(f, PosAfter(f, n))
  {
  }

  /** Expired records are not handed over. */
  lemma NotHanded(f: seq<byte>, pos: nat, now: nat, q: seq<Entry>, room: int)
    requires Mapped(f) && More(f, pos) && Le(f[pos + 8..pos + 15]) <= now
    ensures Handed(f, pos, now) == [] && Took(q, q, 0, room, []) && q + [] == q
  {
  }

  // ----- the file of a dump

  lemma SoundEntry(es: seq<Entry>, i: nat)
    requires AllSound(es) && i < |es|
    ensures Sound(es[i])
  {
  }

  /** The record of entry `i` in a dump. */
  lemma DumpRecord(es: seq<Entry>, i: nat, now: nat)
    requires AllSound(es) && Mapped(FileOf(es)) && i < |es|
    ensures AllSound(es[..i]) && AllSound(es[..i + 1])
    ensures var f, p, e := FileOf(es), |FileOf(es[..i])|, es[i];
            && More(f, p) && Ahead(f, p) == |FileOf(es[..i + 1])|
            && Handed(f, p, now) == if e.expire > now then [Renewed(e, now)] else []
  {
    hide FileOf, Payload, AllSound, Unpack32;
    SoundEntry(es, i);
    RecordAt(es, i);
    var f, p, e := FileOf(es), |FileOf(es[..i])|, es[i];
    RecordParts(f, p, e);
    ExpiryRead(e.expire);
    Exact(p + 16 + |e.key| + |e.data|);
  }

  /** The rounds take the entries of a dump one after another. */
  lemma {:induction false} DumpRounds(es: seq<Entry>, i: nat, now: nat)
    requires AllSound(es) && Mapped(FileOf(es)) && i <= |es|
    ensures AllSound(es[..i]) && PosAfter(FileOf(es), i) == |FileOf(es[..i])|
    ensures Loaded(FileOf(es), i, now) == Live(es[..i], now)
  {
    hide FileOf, More, Ahead, Handed, AllSound;
    if i == 0 {
      assert es[..0] == [];
      SoundStart();
      NoFile();
    } else {
      DumpRounds(es, i - 1, now);
      DumpRecord(es, i - 1, now);
      assert es[..i][..i - 1] == es[..i - 1] && es[..i][i - 1] == es[i - 1];
    }
  }

  /** Loading a dump ends, after all of it. */
  lemma RunOfDump(es: seq<Entry>, now: nat)
    requires AllSound(es) && Mapped(FileOf(es))
    ensures var f := FileOf(es); Ends(f, |f| + 1) && Loaded(f, |f| + 1, now) == Live(es, now)
  {
    hide FileOf, Loaded, PosAfter, Live, Total, AllSound;
    var f := FileOf(es);
    FileLength(es);
    DumpRounds(es, |es|, now);
    assert es[..|es|] == es;
    Stopped(f, |es|, |f|, now);
    Stopped(f, |es|, |f| + 1, now);
  }

  lemma {:induction false} FileLength(es: seq<Entry>)
    requires AllSound(es)
    ensures |FileOf(es)| + 4 * |es| == Total(es) && |es| <= |FileOf(es)|
  {
    hide Payload;
    if es != [] {
      var n := |es| - 1;
      FileLength(es[..n]);
      assert es == es[..n] + [es[n]];
      TotalAppend(es[..n], es[n]);
    }
  }

  lemma DumpMapped(c: Cache, es: seq<Entry>)
    requires c.Valid() && AllSound(es) && Total(es) <= c.size - c.hsize
    ensures Mapped(FileOf(es))
  {
    FileLength(es);
    SizeRange(c);
  }

  // ----- the round trip

  /** What the invariant of the cache says about its entries. */
  lemma ValidSound(c: Cache)
    requires c.Valid()
    ensures AllSound(c.Queue()) && Total(c.Queue()) <= c.size - c.hsize
  {
    forall i | 0 <= i < |c.q| ensures Sound(c.Queue()[i]) { assert WellFormed(c.q[i], c.hsize); }
    TotalRuns(c.S(), c.q, c.k);
  }

  /**
  Dumping a cache and loading the dump into a fresh one of the same size restores the queue of unexpired entries, in
  order and in full.
  */
  method Restore(c: Cache, restored: Cache, now: nat, after: seq<byte>)
    requires c.Valid() && FirstLap(restored) && restored.Queue() == [] && restored.size == c.size
    requires c != restored && c.x != restored.x && now + WEEK < 0x100_0000_0000_0000 && |after| == 2
    modifies restored, restored.x
    ensures FirstLap(restored) && restored.size == old(restored.size)
    ensures var w := Written(c.x[..], c.q, after);
            ByType(c.Queue(), w) && restored.Queue() == Live(KeptOf(c.Queue(), w), now)
  {
    hide Rep, Hashed, TableSize, KeptOf, Live, Total, FileOf, AllSound, Written, ByType, Loaded, Mapped, Recent;
    ValidSound(c);
    var f := Dump(c, after);
    ghost var w := Written(c.x[..], c.q, after);
    ghost var es := KeptOf(c.Queue(), w);
    KeptTotal(c.Queue(), w);
    LiveTotal(es, now);
    DumpMapped(c, es);
    RunOfDump(es, now);
    RecentNone(c.size - c.hsize);
    var ended := Load(restored, f, now, |f| + 1, []);
  }

  /**
  A process that ends with `cache_dump` and one that starts with `cache_init` and `cache_load`, the clock held
  still.
  */
  method Reload(c: Cache, now: nat, after: seq<byte>) returns (restored: Cache)
    requires c.Valid() && now + WEEK < 0x100_0000_0000_0000 && |after| == 2
    ensures fresh(restored) && fresh(restored.x) && FirstLap(restored) && restored.size == c.size
    ensures var w := Written(c.x[..], c.q, after);
            ByType(c.Queue(), w) && restored.Queue() == Live(KeptOf(c.Queue(), w), now)
  {
    hide Rep, Written, ByType;
    SizeRange(c);
    restored := new Cache(c.size, c.siphash);
    Restore(c, restored, now, after);
  }

  lemma SizeRange(c: Cache)
    requires c.Valid()
    ensures 100 <= c.size <= 3000000000
  {
  }
}
