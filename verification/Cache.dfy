/**
`dq/cache.c`: a hash table in one circular byte buffer. Positions are 32-bit words, and every sum of
positions is written with its wrap-around. The class keeps the representation invariant of
`CacheRep` over every call, from which it follows that no sum wraps and that each of the five tests
that lead to `cache_impossible` fails, and it refines a plain queue of entries.
*/
module Cache {
  import opened Bits
  import opened Bytes
  import opened CacheList
  import opened CacheRep

  const MAXENTRY := 1001020  // 20 + MAXKEYLEN + MAXDATALEN
  const WEEK := 604800

  datatype Lookup = Miss | Hit(data: seq<byte>, ttl: nat, flags: byte)

  // ----- the queue of entries, as a caller sees it

  function Total(q: seq<Entry>): nat
  {
    if q == [] then 0 else Len(q[0]) + Total(q[1..])
  }

  /** The index of the newest entry with the given key, or -1. */
  function FindLast(q: seq<Entry>, key: seq<byte>): (i: int)
    ensures -1 <= i < |q|
    ensures i >= 0 ==> q[i].key == key
    ensures forall j :: i < j < |q| ==> q[j].key != key
  {
    if q == [] then -1
    else if q[|q| - 1].key == key then |q| - 1
    else FindLast(q[..|q| - 1], key)
  }

  /** How many entries of bucket `b` the queue holds. */
  function InBucket(q: seq<Placed>, b: nat): nat
  {
    if q == [] then 0 else (if q[0].bucket == b then 1 else 0) + InBucket(q[1..], b)
  }

  function Entries(q: seq<Placed>): (s: seq<Entry>)
    ensures |s| == |q| && forall i :: 0 <= i < |q| ==> s[i] == q[i].e
  {
    seq(|q|, i requires 0 <= i < |q| => q[i].e)
  }

  lemma EntriesTail(q: seq<Placed>, d: nat)
    requires d <= |q|
    ensures Entries(q[d..]) == Entries(q)[d..]
  {
  }

  /** The time to live stored, and the seven bytes of the expiry time. */
  function Clip(ttl: int): int { if ttl > WEEK then WEEK else ttl }

  function Expiry(now: nat, ttl: nat): nat { (now + ttl) % 0x100_0000_0000_0000 }

  // ----- the hash of a key

  /** Line 102, for a table of 2^n bytes: a multiple of four inside the table of head links. */
  lemma HashRange(u: nat, n: nat)
    requires n >= 2
    ensures Pow2(n) >= 4 && And(u, Pow2(n) - 4) % 4 == 0 && And(u, Pow2(n) - 4) + 4 <= Pow2(n)
  {
    hide Pow2, And;
    var p := Pow2(n - 2);
    FirstTable();
    Pow2Add(2, n - 2);
    AndSplit(u, 4 * (p - 1), 2, 4, u % 4, u / 4, 0, p - 1);
    AndNothing(u % 4);
    AndAtMost(u / 4, p - 1);
  }

  lemma AndNothing(x: nat)
    ensures And(x, 0) == 0
  {
  }

  lemma {:induction false} AndAtMost(x: nat, m: nat)
    ensures And(x, m) <= m
    decreases m
  {
    if x != 0 && m != 0 { AndAtMost(x / 2, m / 2); }
  }

  /** Lines 96-103. */
  function Hash(siphash: seq<byte> -> u32, hsize: nat, key: seq<byte>): nat
    requires hsize >= 4
  {
    And(siphash(key), hsize - 4)
  }

  /** Lines 223-224: the size of the table of head links, from `h` bytes upwards. */
  function TableSize(size: nat, h: nat): nat
    requires h > 0
    decreases size - h
  {
    if h <= size / 32 then TableSize(size, 2 * h) else h
  }

  /** Every entry is in the bucket of its key. */
  ghost predicate Hashed(siphash: seq<byte> -> u32, bits: nat, hsize: nat, q: seq<Placed>)
  {
    && bits >= 2 && hsize == Pow2(bits) && hsize >= 4
    && forall i :: 0 <= i < |q| ==> q[i].bucket == Hash(siphash, hsize, q[i].e.key)
  }

  lemma HashedTail(siphash: seq<byte> -> u32, bits: nat, hsize: nat, q: seq<Placed>)
    requires Hashed(siphash, bits, hsize, q) && q != []
    ensures Hashed(siphash, bits, hsize, q[1..])
  {
    hide Hash;
    var r := q[1..];
    forall i | 0 <= i < |r| ensures r[i].bucket == Hash(siphash, hsize, r[i].e.key) { assert r[i] == q[i + 1]; }
  }

  lemma HashedAppend(siphash: seq<byte> -> u32, bits: nat, hsize: nat, q: seq<Placed>, p: Placed)
    requires Hashed(siphash, bits, hsize, q) && p.bucket == Hash(siphash, hsize, p.e.key)
    ensures Hashed(siphash, bits, hsize, q + [p])
  {
  }

  // ----- the sum of the entry lengths

  lemma {:induction false} TotalAppend(q: seq<Entry>, e: Entry)
    ensures Total(q + [e]) == Total(q) + Len(e)
  {
    if q == [] {
      assert q + [e] == [e] && [e][1..] == [];
    } else {
      assert (q + [e])[1..] == q[1..] + [e];
      TotalAppend(q[1..], e);
    }
  }

  /** A run of adjacent entries spans the sum of their lengths. */
  lemma {:induction false} TotalRun(q: seq<Placed>)
    requires q != [] && forall i, j :: 0 <= i < j < |q| && j == i + 1 ==> q[j].pos == q[i].pos + Size(q[i])
    ensures Total(Entries(q)) == q[|q| - 1].pos + Size(q[|q| - 1]) - q[0].pos
  {
    var n := |q| - 1;
    assert Entries(q) == Entries(q[..n]) + [q[n].e];
    TotalAppend(Entries(q[..n]), q[n].e);
    if n > 0 {
      TotalRun(q[..n]);
      assert q[n].pos == q[n - 1].pos + Size(q[n - 1]);
    } else {
      assert Entries(q[..0]) == [];
    }
  }

  lemma {:induction false} TotalConcat(a: seq<Entry>, b: seq<Entry>)
    ensures Total(a + b) == Total(a) + Total(b)
  {
    if a == [] {
      assert a + b == b;
    } else {
      assert (a + b)[1..] == a[1..] + b;
      TotalConcat(a[1..], b);
    }
  }

  lemma LeftRun(s: Store, q: seq<Placed>, k: nat)
    requires Runs(s, q, k)
    ensures Total(Entries(q[..k])) == s.unused - s.oldest
  {
    hide WellFormed, Apart, Total, Entries;
    if k == 0 {
      TotalNone();
      assert q[..k] == [];
    } else {
      var a := q[..k];
      forall i, j | 0 <= i < j < |a| && j == i + 1 ensures a[j].pos == a[i].pos + Size(a[i]) {
        assert q[j].pos == q[i].pos + Size(q[i]);
      }
      TotalRun(a);
    }
  }

  lemma RightRun(s: Store, q: seq<Placed>, k: nat)
    requires Runs(s, q, k)
    ensures Total(Entries(q[k..])) == s.writer - s.hsize
  {
    hide WellFormed, Apart, Total, Entries;
    if k == |q| {
      TotalNone();
      assert q[k..] == [];
    } else {
      var b := q[k..];
      forall i, j | 0 <= i < j < |b| && j == i + 1 ensures b[j].pos == b[i].pos + Size(b[i]) {
        assert q[k + j].pos == q[k + i].pos + Size(q[k + i]);
      }
      TotalRun(b);
    }
  }

  lemma TotalNone()
    ensures Total(Entries([])) == 0
  {
  }

  /** The two runs hold all entries: nothing is lost between them. */
  lemma TotalRuns(s: Store, q: seq<Placed>, k: nat)
    requires Runs(s, q, k)
    ensures Total(Entries(q)) == (s.unused - s.oldest) + (s.writer - s.hsize)
  {
    LeftRun(s, q, k);
    RightRun(s, q, k);
    hide Runs, Total;
    EntriesSplit(q, k);
    TotalConcat(Entries(q[..k]), Entries(q[k..]));
  }

  lemma EntriesSplit(q: seq<Placed>, k: nat)
    requires k <= |q|
    ensures Entries(q) == Entries(q[..k]) + Entries(q[k..])
  {
  }

  // ----- looking a key up

  /** How the walk of `cache_get` stands: entries `n` and newer of bucket `b` are behind it. */
  ghost predicate Walk(q: seq<Placed>, b: nat, n: nat, prevpos: nat, pos: nat)
  {
    n <= |q| && pos == Newest(q[..n], b) && prevpos == Oldest(q[n..], b)
  }

  /** Line 148: the exclusive or of the link and the newer neighbour is the older neighbour. */
  lemma WalkStep(q: seq<Placed>, b: nat, n: nat, prevpos: nat, pos: nat) returns (j: nat)
    requires Walk(q, b, n, prevpos, pos) && pos != 0
    ensures j < n && q[j].bucket == b && q[j].pos == pos && NoneIn(q[j + 1..n], b)
    ensures Walk(q, b, j, pos, Xor(prevpos, Link(q, j)))
    ensures InBucket(q[j..], b) == InBucket(q[n..], b) + 1
  {
    hide Newest, Oldest, InBucket, Xor, NoneIn;
    j := NewestIndex(q[..n], b);
    WalkSlices(q, n, j);
    var r := q[j + 1..];
    OldestSkip(r, n - j - 1, b);
    XorCancel(NewerOf(q, j), OlderOf(q, j));
    InBucketSkip(r, n - j - 1, b);
    InBucketFirst(q, j, b);
    OldestFirst(q, j, b);
  }

  lemma WalkSlices(q: seq<Placed>, n: nat, j: nat)
    requires j < n <= |q|
    ensures q[..n][j] == q[j] && q[..n][j + 1..] == q[j + 1..n] && q[..n][..j] == q[..j]
    ensures q[j + 1..][..n - j - 1] == q[j + 1..n] && q[j + 1..][n - j - 1..] == q[n..]
  {
  }

  lemma InBucketFirst(q: seq<Placed>, j: nat, b: nat)
    requires j < |q| && q[j].bucket == b
    ensures InBucket(q[j..], b) == 1 + InBucket(q[j + 1..], b)
  {
    assert q[j..][0] == q[j] && q[j..][1..] == q[j + 1..];
  }

  lemma OldestFirst(q: seq<Placed>, j: nat, b: nat)
    requires j < |q| && q[j].bucket == b
    ensures Oldest(q[j..], b) == q[j].pos
  {
  }

  lemma {:induction false} InBucketSkip(q: seq<Placed>, n: nat, b: nat)
    requires n <= |q| && NoneIn(q[..n], b)
    ensures InBucket(q, b) == InBucket(q[n..], b)
    decreases n
  {
    if n == 0 {
      assert q[0..] == q;
    } else {
      assert q[..n][0] == q[0];
      var r := q[1..];
      assert NoneIn(r[..n - 1], b) by {
        var t := r[..n - 1];
        forall i | 0 <= i < |t| ensures t[i].bucket != b { assert t[i] == q[..n][i + 1]; }
      }
      InBucketSkip(r, n - 1, b);
      assert r[n - 1..] == q[n..];
    }
  }

  // ----- cache.c

  /** Lines 223-224. */
  method ChooseTable(size: u32) returns (h: u32, ghost b: nat)
    requires size >= 100
    ensures b >= 2 && h == Pow2(b) && h == TableSize(size, 4) && h % 4 == 0 && 4 <= h <= size / 16
  {
    hide Pow2, U32, TableSize;
    FirstTable();
    h, b := 4, 2;
    while h <= size / 32
      invariant b >= 2 && h == Pow2(b) && h % 4 == 0 && 4 <= h <= size / 16
      invariant TableSize(size, h) == TableSize(size, 4)
      decreases size - h
    {
      NextTable(size, h, b);
      h, b := U32(2 * h), b + 1;
    }
    LastTable(size, h);
  }

  lemma FirstTable()
    ensures Pow2(2) == 4
  {
  }

  lemma NextTable(size: u32, h: u32, b: nat)
    requires 4 <= h <= size / 32 && h == Pow2(b) && h % 4 == 0
    ensures U32(2 * h) == 2 * h == Pow2(b + 1) && 2 * h <= size / 16 && 2 * h % 4 == 0
    ensures TableSize(size, 2 * h) == TableSize(size, h)
  {
    Exact(2 * h);
  }

  lemma LastTable(size: u32, h: u32)
    requires h > size / 32 && h > 0
    ensures TableSize(size, h) == h
  {
  }

  class Cache {
    const siphash: seq<byte> -> u32
    const x: array<byte>
    var size: u32
    var hsize: u32
    var writer: u32
    var oldest: u32
    var unused: u32
    ghost const bits: nat
    ghost var q: seq<Placed>
    ghost var k: nat

    ghost function S(): Store
      reads this, x
    {
      Store(x[..], hsize, writer, oldest, unused)
    }

    ghost predicate Valid()
      reads this, x
    {
      && size == x.Length && Rep(S(), q, k) && Hashed(siphash, bits, hsize, q)
      && (k > 0 ==> unused + MAXENTRY > size)
      && hsize == TableSize(size, 4)
    }

    /** The queue the buffer stands for, oldest entry first. */
    ghost function Queue(): seq<Entry>
      reads this
    {
      Entries(q)
    }

    /** Lines 66-69. */
    method Set4(pos: u32, u: u32)
      requires pos <= size - 4 && size == x.Length
      modifies x
      ensures x[..] == SetWord(old(x[..]), pos, u)
    {
      if pos > U32(size - 4) {
        assert false;
      }
      CopyBytes(x, pos, Pack32(u));
    }

    /** Lines 71-78. */
    method Get4(pos: u32) returns (u: u32)
      requires pos <= size - 4 && size == x.Length
      ensures u == Word(x[..], pos)
    {
      if pos > U32(size - 4) {
        assert false;
      }
      u := Unpack32(x[..], pos);
    }

    /** `cache_init`, lines 210-235, with the allocation succeeding. */
    constructor (cachesize: int, siphash: seq<byte> -> u32)
      ensures Valid() && Queue() == [] && fresh(x) && oldest == size && unused == size
      ensures size == if cachesize > 3000000000 then 3000000000 else if cachesize < 100 then 100 else cachesize
      ensures this.siphash == siphash
    {
      hide Rep, Hashed;
      var n: u32 := if cachesize > 3000000000 then 3000000000 else if cachesize < 100 then 100 else cachesize;
      var h, b := ChooseTable(n);
      this.siphash := siphash;
      size, hsize, writer, oldest, unused, bits, q, k := n, h, h, n, n, b, [], 0;
      x := new byte[n];
      new;
      for i := 0 to n
        invariant x.Length == n && fresh(x) && forall j :: 0 <= j < i ==> x[j] == 0
        modifies x
      {
        x[i] := 0;
      }
      EmptyRep(S(), bits, siphash);
    }

    /** Lines 181-189: the oldest entry leaves. */
    method Evict()
      requires Valid() && k > 0
      modifies this, x
      ensures Valid() && size == old(size) && hsize == old(hsize) && writer == old(writer)
      ensures q == old(q)[1..] && k == old(k) - 1
    {
      hide Word, SetWord, Rep, Hashed, TableSize;
      ghost var s := S();
      EvictRep(s, q, k);
      OldestEntry(s, q, k);
      OldestLengths(s, q, k);
      var pos := Get4(oldest);
      var w := Get4(pos);
      XorBound32(w, oldest);
      Set4(pos, Xor(w, oldest));
      Advance(s);
      ghost var r := q[1..];
      HashedTail(siphash, bits, hsize, q);
      Empty(S(), r, k - 1);
      q, k := r, k - 1;
    }

    /** Lines 184-189: the oldest entry, already unlinked from its bucket, is stepped over. */
    method Advance(ghost s: Store)
      requires Rep(s, q, k) && k > 0 && size == x.Length == |s.m|
      requires s.oldest + 20 <= |s.m| && Word(s.m, s.oldest) + 4 <= |s.m| && x[..] == Unlinked(s)
      requires hsize == s.hsize && writer == s.writer && oldest == s.oldest && unused == s.unused
      modifies `oldest, `unused
      ensures S() == Evicted(s)
    {
      hide Word, SetWord, U32, Rep;
      OldestLengths(s, q, k);
      Exact(oldest + 4);
      Exact(oldest + 8);
      var a := Get4(U32(oldest + 4));
      var b := Get4(U32(oldest + 8));
      Exact(a + b);
      Exact(a + b + 20);
      Exact(oldest + a + b + 20);
      oldest := U32(oldest + U32(U32(a + b) + 20));
      if oldest > unused {
        assert false;
      }
      if oldest == unused {
        unused := size;
        oldest := size;
      }
    }

    /**
    Lines 173-190: entries leave, oldest first, until `entrylen` bytes are free; `ok` is false on the return
    of line 175.
    */
    method MakeRoom(entrylen: u32) returns (ok: bool, ghost d: nat)
      requires Valid() && 1 <= entrylen <= MAXENTRY
      modifies this, x
      ensures Valid() && size == old(size) && hsize == old(hsize)
      ensures d <= |old(q)| && q == old(q)[d..]
      ensures ok ==> writer + entrylen <= oldest
      ensures ok <==> entrylen <= size - hsize
      ensures !ok ==> q == []
      ensures old(writer) + entrylen <= old(oldest) ==> d == 0 && oldest == old(oldest) && unused == old(unused)
      ensures d > 0 ==> Total(Entries(old(q)[d - 1..])) + entrylen > size - hsize - MAXENTRY
    {
      hide U32, Rep, Hashed, Total, Entries, TableSize;
      d := 0;
      ok := true;
      SumExact(S(), q, k, entrylen);
      while U32(writer + entrylen) > oldest
        invariant U32(writer + entrylen) == writer + entrylen
        invariant Valid() && size == old(size) && hsize == old(hsize)
        invariant d <= |old(q)| && q == old(q)[d..]
        invariant old(writer) + entrylen <= old(oldest) ==> d == 0 && writer == old(writer) && oldest == old(oldest)
                                                            && unused == old(unused)
        invariant d > 0 ==> Total(Entries(old(q)[d - 1..])) + entrylen > size - hsize - MAXENTRY
        decreases |q|
      {
        Empty(S(), q, k);
        if oldest == unused {
          if writer <= hsize {
            ok := false;
            return;
          }
          Wrap();
        }
        Pressure(S(), q, k, entrylen);
        assert q == old(q)[d..];
        Evict();
        d := d + 1;
        SumExact(S(), q, k, entrylen);
      }
      Bounds(S(), q, k);
    }

    /** Lines 176-178: the second run becomes the first. */
    method Wrap()
      requires Valid() && oldest == unused && writer > hsize && writer + MAXENTRY > size
      modifies `unused, `oldest, `writer, `k
      ensures Valid() && k > 0 && writer == hsize == oldest
    {
      hide Rep, Hashed, TableSize;
      ghost var s := S();
      WrapRep(s, q, k);
      unused, oldest, writer := writer, hsize, hsize;
      k := |q|;
      assert S() == Wrapped(s);
    }

    /** Lines 194-205: the new entry is written in the free space and linked in as the newest of its bucket. */
    method Insert(p: Placed, now: nat, ttl: nat)
      requires Valid() && Fits(S(), p) && p.e.expire == Expiry(now, ttl) && hsize >= 4
               && p.bucket == Hash(siphash, hsize, p.e.key)
      modifies this, x
      ensures Valid() && size == old(size) && hsize == old(hsize) && q == old(q) + [p]
      ensures oldest == old(oldest) && unused == old(unused)
    {
      hide Word, SetWord, Splice, U32, Rep, Hashed, Payload;
      ghost var s := S();
      HashedAppend(siphash, bits, hsize, q, p);
      InsertRep(s, q, k, p);
      FitsInsertable(s, q, k, p);
      Bounds(s, q, k);
      var keyhash: u32, key, data := p.bucket, p.e.key, p.e.data;
      var pos := Relink(keyhash);
      XorBound32(pos, keyhash);
      ghost var m := x[..];
      WriteEntry(Xor(pos, keyhash), p.e, now, ttl);
      assert x[..] == Splice(m, writer, NewBytes(s.m, p));
      Set4(keyhash, writer);
      Exact(|key| + |data| + 20);
      Exact(writer + |key| + |data| + 20);
      writer := U32(writer + U32(|key| + |data| + 20));
      assert S() == Inserted(s, p);
      q := q + [p];
    }

    /** Lines 194-196: the newest entry of the bucket, if any, learns of its newer neighbour. */
    method Relink(keyhash: u32) returns (pos: u32)
      requires size == x.Length && keyhash + 4 <= size && Word(x[..], keyhash) + 4 <= size
      modifies x
      ensures pos == old(Word(x[..], keyhash)) && x[..] == Relinked(old(x[..]), keyhash, writer)
    {
      hide Word, SetWord;
      pos := Get4(keyhash);
      if pos != 0 {
        var w := Get4(pos);
        XorBound32(w, keyhash);
        XorBound32(Xor(w, keyhash), writer);
        Set4(pos, Xor(Xor(w, keyhash), writer));
      }
    }

    /** Lines 197-203. */
    method WriteEntry(link: u32, e: Entry, now: nat, ttl: nat)
      requires |e.key| <= MAXKEYLEN && |e.data| <= MAXDATALEN && writer + Len(e) <= size == x.Length <= 3000000000
      requires e.expire == Expiry(now, ttl)
      modifies x
      ensures x[..] == Splice(old(x[..]), writer, Pack32(link) + Payload(e))
    {
      hide Splice, Pack32, Payload, Expiry, SetWord, U32;
      ghost var m := x[..];
      WriteWords(link, |e.key|, |e.data|);
      WriteExpiry(writer + 12, now, ttl, e.flags);
      CopyBytes(x, writer + 20, e.key);
      CopyBytes(x, writer + 20 + |e.key|, e.data);
      EntryWrites(m, writer, link, e);
    }

    /** Lines 197-199. */
    method WriteWords(link: u32, keylen: u32, datalen: u32)
      requires writer + 12 <= size == x.Length <= 3000000000
      modifies x
      ensures x[..] == Splice(Splice(Splice(old(x[..]), writer, Pack32(link)), writer + 4, Pack32(keylen)), writer + 8,
                              Pack32(datalen))
    {
      hide Splice, Pack32, U32;
      ghost var m := x[..];
      Exact(writer + 4);
      Exact(writer + 8);
      Set4(writer, link);
      SetIsSplice(m, writer, link);
      ghost var m1 := x[..];
      Set4(U32(writer + 4), keylen);
      SetIsSplice(m1, writer + 4, keylen);
      ghost var m2 := x[..];
      Set4(U32(writer + 8), datalen);
      SetIsSplice(m2, writer + 8, datalen);
    }

    /** Lines 200-201. */
    method WriteExpiry(pos: nat, now: nat, ttl: nat, flags: byte)
      requires pos + 8 <= x.Length
      modifies x
      ensures x[..] == Splice(old(x[..]), pos, ToLe(Expiry(now, ttl), 7) + [flags])
    {
      hide Splice;
      ghost var m := x[..];
      CopyBytes(x, pos, ToLe(U64(now + ttl), 8));
      ghost var m' := x[..];
      x[pos + 7] := flags;
      assert x[..] == m'[pos + 7 := flags];
      ExpiryBytes(m, pos, now, ttl, flags);
    }

    /** Lines 171-207, past the tests of the arguments. */
    method Add(key: seq<byte>, data: seq<byte>, life: nat, flags: byte, now: nat) returns (ghost d: nat)
      requires Valid() && |key| <= MAXKEYLEN && |data| <= MAXDATALEN
      modifies this, x
      ensures Valid() && size == old(size) && hsize == old(hsize)
      ensures d <= |old(q)|
      ensures var e := Entry(key, data, Expiry(now, life), flags);
              if Len(e) > size - hsize then Queue() == [] else Queue() == Entries(old(q)[d..]) + [e]
      ensures old(writer) + 20 + |key| + |data| <= old(oldest)
              ==> d == 0 && oldest == old(oldest) && unused == old(unused)
      ensures d > 0 ==> Total(Entries(old(q)[d - 1..])) + 20 + |key| + |data| > size - hsize - MAXENTRY
    {
      hide Rep, Total, Expiry, Pow2;
      var entrylen: u32 := U32(|key| + |data| + 20);
      var ok;
      ok, d := MakeRoom(entrylen);
      if ok {
        var keyhash := Hash(siphash, hsize, key);
        HashRange(siphash(key), bits);
        Bounds(S(), q, k);
        ExpiryRange(now, life);
        var p := Placed(writer, keyhash, Entry(key, data, Expiry(now, life), flags));
        ghost var r := q;
        Insert(p, now, life);
        assert Entries(r + [p]) == Entries(r) + [p.e];
      }
    }

    /**
    `cache_set`, lines 158-208. An entry with an admissible key, data and lifetime becomes the newest
    of the queue while `d` of the oldest leave it, and they leave only under pressure; an entry too
    large for the buffer empties the cache.
    */
    method Set(key: seq<byte>, data: seq<byte>, ttl: int, flags: byte, now: nat) returns (ghost d: nat)
      requires Valid()
      modifies this, x
      ensures Valid() && size == old(size) && hsize == old(hsize)
      ensures Settled(old(Queue()), Queue(), d, size - hsize, key, data, ttl, flags, now)
      ensures old(writer) + 20 + |key| + |data| <= old(oldest)
              ==> d == 0 && oldest == old(oldest) && unused == old(unused)
    {
      hide Total, Expiry, Valid;
      d := 0;
      if |key| <= MAXKEYLEN && |data| <= MAXDATALEN && ttl > 0 {
        d := Add(key, data, Clip(ttl), flags, now);
        EntriesTail(old(q), d);
        if d > 0 { EntriesTail(old(q), d - 1); }
      }
    }

    /**
    `cache_get`, lines 106-156: the newest entry with the key, unless it expired or lies behind more
    than a hundred entries of its bucket.
    */
    method Get(key: seq<byte>, now: nat) returns (r: Lookup)
      requires Valid()
      ensures r == Find(q, key, now)
    {
      hide Rep, Hashed, Word, Xor, Link, Newest, Oldest, InBucket, U32, Find, Answer, NoneIn, TableSize, Payload;
      hide Positive;
      if |key| > MAXKEYLEN {
        NoLongKey(S(), q, k, key, now);
        return Miss;
      }
      var prevpos: u32 := HashOf(key);
      ghost var b: nat := prevpos;
      ghost var s := S();
      Bounds(s, q, k);
      WalkStart(s, q, k, b);
      var pos: u32 := Get4(prevpos);
      var loop := 0;
      ghost var n: nat := |q|;
      while pos != 0
        invariant Walk(q, b, n, prevpos, pos) && loop == InBucket(q[n..], b) <= 100
        invariant forall j :: n <= j < |q| ==> q[j].e.key != key
        decreases n
      {
        ghost var j := WalkStep(q, b, n, prevpos, pos);
        EntryAt(s, q, k, j);
        SameKeySameBucket(siphash, bits, hsize, q, key, j, n);
        var same := KeyIs(pos, key, q[j], Link(q, j));
        if same {
          FoundAt(q, key, now, j, b, n);
          r := ReadHit(pos, |key|, now, s.m, q[j], Link(q, j));
          return;
        }
        var link := Get4(pos);
        XorBound32(prevpos, link);
        prevpos, pos := pos, Xor(prevpos, link);
        loop := loop + 1;
        n := j;
        if loop > 100 {
          TooDeep(siphash, bits, hsize, q, key, now, j, b);
          return Miss;
        }
      }
      RepPositive(s, q, k);
      NotFound(siphash, bits, hsize, q, key, now, b, n);
      return Miss;
    }

    /** Lines 129-131. */
    method KeyIs(pos: u32, key: seq<byte>, ghost p: Placed, ghost link: nat) returns (same: bool)
      requires Stored(x[..], p, link) && p.pos == pos && size == x.Length <= 3000000000
      ensures same <==> p.e.key == key
    {
      hide Word, Payload, U32;
      StoredParts(x[..], p, link);
      StoredLengths(x[..], p, link);
      Exact(pos + 4);
      Exact(pos + 20);
      var keylen := Get4(U32(pos + 4));
      if keylen != |key| { return false; }
      if U32(pos + 20) + |key| > size {
        assert false;
      }
      return x[pos + 20..pos + 20 + |key|] == key;
    }

    method HashOf(key: seq<byte>) returns (b: u32)
      requires Valid()
      ensures hsize >= 4 && b == Hash(siphash, hsize, key) && b + 4 <= hsize && b % 4 == 0
    {
      hide Rep, Pow2, And;
      HashRange(siphash(key), bits);
      b := Hash(siphash, hsize, key);
    }

    /** Lines 132-145: the lifetime left, the flags and the data of the entry at `pos`. */
    method ReadHit(pos: u32, keylen: nat, now: nat, ghost m: seq<byte>, ghost p: Placed, ghost link: nat)
      returns (r: Lookup)
      requires m == x[..] && Stored(m, p, link) && p.pos == pos && |p.e.key| == keylen && size == x.Length
      requires p.e.expire < 0x100_0000_0000_0000 && size <= 3000000000
      ensures r == Answer(p.e, now)
    {
      hide Word, Payload, ToLe, Le, U32;
      StoredParts(m, p, link);
      StoredLengths(m, p, link);
      ExpiryRead(p.e.expire);
      Exact(pos + 8);
      Exact(size - pos);
      Exact(size - pos - 20);
      var flags := x[pos + 19];
      var xttl := Le(x[pos + 12..pos + 19]) - now;
      if xttl <= 0 {
        return Miss;
      }
      if xttl > WEEK {
        xttl := WEEK;
      }
      var u := Get4(U32(pos + 8));
      if u > U32(U32(size - pos) - 20) - keylen {
        assert false;
      }
      return Hit(x[pos + 20 + keylen..pos + 20 + keylen + u], xttl, flags);
    }
  }

  lemma SetIsSplice(m: seq<byte>, pos: nat, u: u32)
    requires pos + 4 <= |m|
    ensures SetWord(m, pos, u) == Splice(m, pos, Pack32(u))
  {
  }

  lemma ExpiryRead(t: nat)
    requires t < 0x100_0000_0000_0000
    ensures Le(ToLe(t, 7)) == t
  {
    assert Pow256(7) == 0x100_0000_0000_0000;
    LeToLe(t, 7);
  }

  /** What a lookup that reaches entry `e` answers. */
  function Answer(e: Entry, now: nat): Lookup
  {
    if e.expire <= now then Miss else Hit(e.data, Clip(e.expire - now), e.flags)
  }

  /** The specification of a lookup: the newest entry with the key, if fewer than 101 newer entries share its bucket. */
  function Find(q: seq<Placed>, key: seq<byte>, now: nat): Lookup
  {
    var i := FindLast(Entries(q), key);
    if i >= 0 && InBucket(q[i + 1..], q[i].bucket) <= 100 then Answer(q[i].e, now) else Miss
  }

  lemma NoLongKey(s: Store, q: seq<Placed>, k: nat, key: seq<byte>, now: nat)
    requires Rep(s, q, k) && |key| > MAXKEYLEN
    ensures Find(q, key, now) == Miss
  {
    forall j | 0 <= j < |q| ensures |q[j].e.key| <= MAXKEYLEN { assert WellFormed(q[j], s.hsize); }
  }

  lemma WalkStart(s: Store, q: seq<Placed>, k: nat, b: nat)
    requires Rep(s, q, k) && b + 4 <= s.hsize && b % 4 == 0
    ensures Walk(q, b, |q|, b, Word(s.m, b)) && InBucket(q[|q|..], b) == 0
    ensures 4 <= s.hsize <= |s.m|
  {
    hide Word;
    assert Word(s.m, b) == Newest(q, b);
    assert q[..|q|] == q && q[|q|..] == [];
  }

  lemma EntryAt(s: Store, q: seq<Placed>, k: nat, j: nat)
    requires Rep(s, q, k) && j < |q|
    ensures Stored(s.m, q[j], Link(q, j)) && Word(s.m, q[j].pos + 4) == |q[j].e.key|
    ensures s.m[q[j].pos + 20..q[j].pos + 20 + |q[j].e.key|] == q[j].e.key
    ensures q[j].pos + Size(q[j]) <= |s.m| && q[j].e.expire < 0x100_0000_0000_0000
  {
    hide Word, Link, Payload;
    assert Stored(s.m, q[j], Link(q, j)) && WellFormed(q[j], s.hsize);
    hide Rep, Runs;
    StoredLengths(s.m, q[j], Link(q, j));
    StoredParts(s.m, q[j], Link(q, j));
  }

  lemma SameKeySameBucket(siphash: seq<byte> -> u32, bits: nat, hsize: nat, q: seq<Placed>, key: seq<byte>, j: nat,
                          n: nat)
    requires Hashed(siphash, bits, hsize, q) && j < n <= |q| && NoneIn(q[j + 1..n], Hash(siphash, hsize, key))
    ensures forall i :: j < i < n ==> q[i].e.key != key
  {
    hide Hash;
    var t := q[j + 1..n];
    forall i | j < i < n ensures q[i].e.key != key { assert t[i - j - 1] == q[i]; }
  }

  lemma FoundAt(q: seq<Placed>, key: seq<byte>, now: nat, j: nat, b: nat, n: nat)
    requires j < n <= |q| && q[j].e.key == key && q[j].bucket == b && NoneIn(q[j + 1..n], b)
    requires forall i :: j < i < |q| ==> q[i].e.key != key
    requires InBucket(q[n..], b) <= 100
    ensures Find(q, key, now) == Answer(q[j].e, now)
  {
    hide InBucket;
    var i := FindLast(Entries(q), key);
    assert Entries(q)[j].key == key;
    assert i == j;
    var r := q[j + 1..];
    assert r[..n - j - 1] == q[j + 1..n] && r[n - j - 1..] == q[n..];
    InBucketSkip(r, n - j - 1, b);
  }

  lemma {:induction false} InBucketDrop(q: seq<Placed>, n: nat, b: nat)
    requires n <= |q|
    ensures InBucket(q[n..], b) <= InBucket(q, b)
    decreases n
  {
    if n == 0 {
      assert q[0..] == q;
    } else {
      InBucketDrop(q[1..], n - 1, b);
      assert q[1..][n - 1..] == q[n..];
    }
  }

  lemma TooDeep(siphash: seq<byte> -> u32, bits: nat, hsize: nat, q: seq<Placed>, key: seq<byte>, now: nat, j: nat,
                b: nat)
    requires Hashed(siphash, bits, hsize, q) && b == Hash(siphash, hsize, key) && j < |q|
    requires forall i :: j <= i < |q| ==> q[i].e.key != key
    requires InBucket(q[j..], b) > 100
    ensures Find(q, key, now) == Miss
  {
    hide InBucket, Hash;
    var i := FindLast(Entries(q), key);
    if i >= 0 {
      assert i < j && q[i].bucket == b;
      var r := q[i + 1..];
      InBucketDrop(r, j - i - 1, b);
      assert r[j - i - 1..] == q[j..];
    }
  }

  lemma NotFound(siphash: seq<byte> -> u32, bits: nat, hsize: nat, q: seq<Placed>, key: seq<byte>, now: nat, b: nat,
                 n: nat)
    requires Positive(q) && Hashed(siphash, bits, hsize, q) && b == Hash(siphash, hsize, key)
    requires n <= |q| && Newest(q[..n], b) == 0
    requires forall i :: n <= i < |q| ==> q[i].e.key != key
    ensures Find(q, key, now) == Miss
  {
    hide Hash, Newest, InBucket;
    var t := q[..n];
    assert Positive(t);
    NewestNone(t, b);
    forall i | 0 <= i < |q| ensures q[i].e.key != key { if i < n { assert t[i] == q[i]; } }
  }

  /** Lines 165-168: the arguments `cache_set` ignores. */
  predicate Rejected(key: seq<byte>, data: seq<byte>, ttl: int)
  {
    |key| > MAXKEYLEN || |data| > MAXDATALEN || ttl <= 0
  }

  /**
  What `cache_set` does with the queue `a`: an entry it does not ignore becomes the newest while `d` of the oldest
  leave, and they leave only under pressure; an entry larger than the room for entries empties the queue.
  */
  ghost predicate Settled(a: seq<Entry>, b: seq<Entry>, d: nat, room: int, key: seq<byte>, data: seq<byte>, ttl: int,
                          flags: byte, now: nat)
  {
    && d <= |a|
    && (if Rejected(key, data, ttl) then b == a
        else if 20 + |key| + |data| > room then b == []
        else b == a[d..] + [Entry(key, data, Expiry(now, Clip(ttl)), flags)])
    && (d > 0 ==> Total(a[d - 1..]) + 20 + |key| + |data| > room - MAXENTRY)
  }

  lemma ExpiryRange(now: nat, ttl: nat)
    ensures Expiry(now, ttl) < 0x100_0000_0000_0000
  {
  }

  /** A buffer of zeros represents the empty queue. */
  lemma EmptyRep(s: Store, bits: nat, siphash: seq<byte> -> u32)
    requires Sizes(s) && s.writer == s.hsize && s.oldest == s.unused == |s.m| && bits >= 2 && s.hsize == Pow2(bits)
    requires forall i :: 0 <= i < |s.m| ==> s.m[i] == 0
    ensures Rep(s, [], 0) && Hashed(siphash, bits, s.hsize, []) && Entries([]) == []
  {
  }

  /** The link and the lengths of the oldest entry can be read. */
  lemma OldestEntry(s: Store, q: seq<Placed>, k: nat)
    requires Rep(s, q, k) && k > 0
    ensures q != [] && s.oldest + 20 <= s.unused <= |s.m| <= 3000000000
  {
    assert q[0].pos + Size(q[0]) <= s.unused;
  }

  /** What is added to `oldest` in line 184 leads to the end of the oldest entry. */
  lemma OldestLengths(s: Store, q: seq<Placed>, k: nat)
    requires Rep(s, q, k) && k > 0
    ensures s.oldest + 20 <= |s.m| && Word(s.m, s.oldest) + 4 <= |s.m|
    ensures var a, b := Word(Unlinked(s), s.oldest + 4), Word(Unlinked(s), s.oldest + 8);
            s.oldest + a + b + 20 <= s.unused && a + b + 20 <= MAXENTRY
  {
    hide Word, SetWord;
    EvictRep(s, q, k);
    UnlinkedLengths(s, q, k);
    assert WellFormed(q[0], s.hsize) && q[0].pos + Size(q[0]) <= s.unused;
  }

  /** Line 173: the sum is that of the integers. */
  lemma SumExact(s: Store, q: seq<Placed>, k: nat, entrylen: nat)
    requires Rep(s, q, k) && entrylen <= MAXENTRY
    ensures U32(s.writer + entrylen) == s.writer + entrylen
  {
    Bounds(s, q, k);
    hide Rep;
    Exact(s.writer + entrylen);
  }

  lemma Bounds(s: Store, q: seq<Placed>, k: nat)
    requires Rep(s, q, k)
    ensures 4 <= s.hsize <= s.writer <= s.oldest <= s.unused <= |s.m| <= 3000000000
  {
  }

  /**
  When no entry is in the first run, the free space ends at the end of the buffer; when none is in the second,
  it starts after the heads.
  */
  lemma Empty(s: Store, q: seq<Placed>, k: nat)
    requires Rep(s, q, k)
    ensures s.oldest == s.unused <==> k == 0
    ensures k == 0 ==> s.oldest == |s.m|
    ensures s.writer <= s.hsize <==> k == |q|
    ensures s.hsize <= s.writer && k <= |q|
  {
    if k > 0 { OldestEntry(s, q, k); }
    if k < |q| { assert q[|q| - 1].pos + Size(q[|q| - 1]) <= s.writer && WellFormed(q[|q| - 1], s.hsize); }
  }

  /**
  An entry leaves only when the entries since it, itself and the new one exceed the buffer less the largest
  entry.
  */
  lemma Pressure(s: Store, q: seq<Placed>, k: nat, entrylen: nat)
    requires Rep(s, q, k) && s.writer + entrylen > s.oldest && s.unused + MAXENTRY > |s.m|
    ensures Total(Entries(q)) + entrylen > |s.m| - s.hsize - MAXENTRY
  {
    TotalRuns(s, q, k);
  }

  /** Lines 200-201: the low seven bytes of the expiry time, then the flags over the eighth. */
  lemma ExpiryBytes(m: seq<byte>, pos: nat, now: nat, ttl: nat, flags: byte)
    requires pos + 8 <= |m|
    ensures Splice(m, pos, ToLe(U64(now + ttl), 8))[pos + 7 := flags]
            == Splice(m, pos, ToLe(Expiry(now, ttl), 7) + [flags])
  {
    hide ToLe;
    var t := now + ttl;
    var s := ToLe(U64(t), 8);
    ToLePrefix(U64(t), 8, 7);
    SevenBytes(t);
    assert s[..7] == ToLe(Expiry(now, ttl), 7);
  }

  lemma SevenBytes(t: nat)
    ensures ToLe(U64(t), 7) == ToLe(t % 0x100_0000_0000_0000, 7)
  {
    hide ToLe;
    var p := 0x100_0000_0000_0000;
    assert Pow256(7) == p;
    DivModBase(t, p, 256);
    ToLeWraps(t % p, t / p % 256, 7);
  }

  /** The writes of lines 197-203 are one write of the new entry. */
  lemma EntryWrites(m: seq<byte>, w: nat, link: u32, e: Entry)
    requires |e.key| <= MAXKEYLEN && |e.data| <= MAXDATALEN && w + Len(e) <= |m|
    ensures var m1 := Splice(m, w, Pack32(link));
            var m2 := Splice(m1, w + 4, Pack32(|e.key|));
            var m3 := Splice(m2, w + 8, Pack32(|e.data|));
            var m4 := Splice(m3, w + 12, ToLe(e.expire, 7) + [e.flags]);
            var m5 := Splice(m4, w + 20, e.key);
            Splice(m5, w + 20 + |e.key|, e.data) == Splice(m, w, Pack32(link) + Payload(e))
  {
    hide Splice, Pack32, ToLe;
    var a, b, c := Pack32(link), Pack32(|e.key|), Pack32(|e.data|);
    var d := ToLe(e.expire, 7) + [e.flags];
    SpliceSplice(m, w, a, b);
    SpliceSplice(m, w, a + b, c);
    SpliceSplice(m, w, a + b + c, d);
    SpliceSplice(m, w, a + b + c + d, e.key);
    SpliceSplice(m, w, a + b + c + d + e.key, e.data);
    assert a + b + c + d + e.key + e.data == a + Payload(e);
  }

  // ----- what a lookup sees over a run of calls

  /** The entry just added is found. */
  lemma FindNewest(q: seq<Placed>, p: Placed, now: nat)
    ensures Find(q + [p], p.e.key, now) == Answer(p.e, now)
  {
    var r := q + [p];
    assert Entries(r)[|q|].key == p.e.key;
    assert r[|q| + 1..] == [];
  }

  lemma {:induction false} InBucketAppend(q: seq<Placed>, p: Placed, b: nat)
    ensures InBucket(q + [p], b) == InBucket(q, b) + if p.bucket == b then 1 else 0
  {
    if q == [] {
      assert q + [p] == [p] && [p][1..] == [];
    } else {
      assert (q + [p])[1..] == q[1..] + [p];
      InBucketAppend(q[1..], p, b);
    }
  }

  /** Adding an entry with another key changes the answer only by pushing an entry out of reach of the walk. */
  lemma FindOther(q: seq<Placed>, p: Placed, key: seq<byte>, now: nat)
    requires key != p.e.key
    ensures Find(q + [p], key, now) == Find(q, key, now) || Find(q + [p], key, now) == Miss
    ensures var i := FindLast(Entries(q), key);
            i < 0 || p.bucket != q[i].bucket || InBucket(q[i + 1..], q[i].bucket) != 100
            ==> Find(q + [p], key, now) == Find(q, key, now)
  {
    hide InBucket;
    var r := q + [p];
    var i, j := FindLast(Entries(q), key), FindLast(Entries(r), key);
    if i >= 0 { assert Entries(r)[i].key == key; }
    if j >= 0 { assert j < |q| && Entries(q)[j].key == key; }
    assert i == j;
    if i >= 0 {
      assert r[i + 1..] == q[i + 1..] + [p];
      InBucketAppend(q[i + 1..], p, q[i].bucket);
    }
  }

  lemma FindLastTail(q: seq<Entry>, key: seq<byte>)
    requires q != []
    ensures FindLast(q[1..], key) == if FindLast(q, key) <= 0 then -1 else FindLast(q, key) - 1
  {
    var r := q[1..];
    var i, j := FindLast(q, key), FindLast(r, key);
    if i > 0 { assert r[i - 1] == q[i]; }
    if j >= 0 { assert q[j + 1] == r[j]; }
  }

  /** Removing the oldest entry changes the answer for its own key only, and only if it was the newest with that key. */
  lemma FindEvicted(q: seq<Placed>, key: seq<byte>, now: nat)
    requires q != []
    ensures Find(q[1..], key, now) == if FindLast(Entries(q), key) == 0 then Miss else Find(q, key, now)
  {
    hide InBucket, FindLast;
    EntriesTail(q, 1);
    FindLastTail(Entries(q), key);
    var i := FindLast(Entries(q), key);
    if i > 0 { assert q[1..][i..] == q[i + 1..]; }
  }
}
