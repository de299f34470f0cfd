/**
The buffer of `cache.c` and the representation invariant its comment states (lines 33-57): head
links, two runs of consecutive entries with free space between them, and in every entry and head
link the exclusive or of the neighbouring positions. The queue of entries is what the buffer
represents; the steps of `cache_set` are shown to keep the invariant.
*/
module CacheRep {
  import opened Bits
  import opened Bytes
  import opened CacheList

  /** The static variables of `cache.c`; `m` is the buffer `x`. */
  datatype Store = Store(m: seq<byte>, hsize: nat, writer: nat, oldest: nat, unused: nat)

  const MAXKEYLEN := 1000
  const MAXDATALEN := 1000000

  function Word(m: seq<byte>, pos: nat): u32
    requires pos + 4 <= |m|
  {
    Unpack32(m, pos)
  }

  /** `set4`. */
  function SetWord(m: seq<byte>, pos: nat, u: u32): (m': seq<byte>)
    requires pos + 4 <= |m|
    ensures |m'| == |m|
  {
    m[..pos] + Pack32(u) + m[pos + 4..]
  }

  lemma SetWordHere(m: seq<byte>, pos: nat, u: u32)
    requires pos + 4 <= |m|
    ensures Word(SetWord(m, pos, u), pos) == u
  {
    UnpackPack32(u);
    var m' := SetWord(m, pos, u);
    assert m'[pos..pos + 4] == Pack32(u);
    assert m'[pos] == m'[pos..pos + 4][0] && m'[pos + 1] == m'[pos..pos + 4][1];
    assert m'[pos + 2] == m'[pos..pos + 4][2] && m'[pos + 3] == m'[pos..pos + 4][3];
  }

  lemma SetWordElsewhere(m: seq<byte>, pos: nat, u: u32, a: nat, b: nat)
    requires pos + 4 <= |m| && a <= b <= |m| && (b <= pos || pos + 4 <= a)
    ensures SetWord(m, pos, u)[a..b] == m[a..b]
  {
    var m' := SetWord(m, pos, u);
    forall i | a <= i < b ensures m'[i] == m[i] {
    }
  }

  lemma WordSame(m: seq<byte>, m': seq<byte>, pos: nat)
    requires pos + 4 <= |m| && pos + 4 <= |m'| && m[pos..pos + 4] == m'[pos..pos + 4]
    ensures Word(m, pos) == Word(m', pos)
  {
    assert m[pos..pos + 4][0] == m[pos] && m[pos..pos + 4][1] == m[pos + 1];
    assert m[pos..pos + 4][2] == m[pos + 2] && m[pos..pos + 4][3] == m[pos + 3];
    assert m'[pos..pos + 4][0] == m'[pos] && m'[pos..pos + 4][1] == m'[pos + 1];
    assert m'[pos..pos + 4][2] == m'[pos + 2] && m'[pos..pos + 4][3] == m'[pos + 3];
  }

  /** What follows the link of an entry: keylen, datalen, expire time with the flags in its top byte, key, data. */
  function Payload(e: Entry): (s: seq<byte>)
    requires |e.key| <= MAXKEYLEN && |e.data| <= MAXDATALEN
    ensures |s| == Len(e) - 4
  {
    Pack32(|e.key|) + Pack32(|e.data|) + ToLe(e.expire, 7) + [e.flags] + e.key + e.data
  }

  ghost predicate WellFormed(p: Placed, hsize: nat)
  {
    && |p.e.key| <= MAXKEYLEN && |p.e.data| <= MAXDATALEN && p.e.expire < 0x100_0000_0000_0000
    && p.bucket + 4 <= hsize && p.bucket % 4 == 0
    && hsize <= p.pos
  }

  ghost predicate Apart(a: Placed, b: Placed) { a.pos + Size(a) <= b.pos || b.pos + Size(b) <= a.pos }

  /**
  The two runs of entries: the first `k` of the queue from `oldest` to `unused`, the rest from `hsize` to
  `writer`.
  */
  ghost predicate Runs(s: Store, q: seq<Placed>, k: nat)
  {
    && k <= |q|
    && s.hsize <= s.writer <= s.oldest <= s.unused <= |s.m|
    && (forall i :: 0 <= i < |q| ==> WellFormed(q[i], s.hsize))
    && (forall i :: 0 <= i < k ==> s.oldest <= q[i].pos && q[i].pos + Size(q[i]) <= s.unused)
    && (forall i :: k <= i < |q| ==> q[i].pos + Size(q[i]) <= s.writer)
    && (forall i, j :: 0 <= i < j < |q| && j == i + 1 && j != k ==> q[j].pos == q[i].pos + Size(q[i]))
    && (forall i, j :: 0 <= i < j < |q| ==> Apart(q[i], q[j]))
    && (if k == 0 then s.oldest == s.unused == |s.m| else q[0].pos == s.oldest
                                                          && q[k - 1].pos + Size(q[k - 1]) == s.unused)
    && (if k == |q| then s.writer == s.hsize else q[k].pos == s.hsize && q[|q| - 1].pos + Size(q[|q| - 1]) == s.writer)
  }

  ghost predicate Stored(m: seq<byte>, p: Placed, link: nat)
  {
    && |p.e.key| <= MAXKEYLEN && |p.e.data| <= MAXDATALEN
    && p.pos + Size(p) <= |m|
    && Word(m, p.pos) == link
    && m[p.pos + 4..p.pos + Size(p)] == Payload(p.e)
  }

  ghost predicate Heads(m: seq<byte>, hsize: nat, q: seq<Placed>)
  {
    && hsize <= |m|
    && forall b {:trigger Newest(q, b)} :: 0 <= b && b + 4 <= hsize && b % 4 == 0 ==> Word(m, b) == Newest(q, b)
  }

  /** Lines 34-39: the sizes. */
  ghost predicate Sizes(s: Store)
  {
    100 <= |s.m| <= 3000000000 && 4 <= s.hsize <= |s.m| / 16 && s.hsize % 4 == 0
  }

  /** The representation invariant. */
  ghost predicate Rep(s: Store, q: seq<Placed>, k: nat)
  {
    && Sizes(s)
    && Runs(s, q, k)
    && (forall i :: 0 <= i < |q| ==> Stored(s.m, q[i], Link(q, i)))
    && Heads(s.m, s.hsize, q)
  }

  lemma RepPositive(s: Store, q: seq<Placed>, k: nat)
    requires Rep(s, q, k)
    ensures Positive(q)
  {
    forall i | 0 <= i < |q| ensures q[i].pos > 0 { assert WellFormed(q[i], s.hsize); }
  }

  lemma StoredSame(m: seq<byte>, m': seq<byte>, p: Placed, link: nat)
    requires Stored(m, p, link) && |m'| == |m| && m'[p.pos..p.pos + Size(p)] == m[p.pos..p.pos + Size(p)]
    ensures Stored(m', p, link)
  {
    hide Word, Payload;
    var a, n := p.pos, Size(p);
    WindowSame(m, m', a, n, 0, 4);
    WordSame(m, m', a);
    WindowSame(m, m', a, n, 4, n);
  }

  lemma WindowSame(m: seq<byte>, m': seq<byte>, a: nat, n: nat, i: nat, j: nat)
    requires a + n <= |m| == |m'| && m'[a..a + n] == m[a..a + n] && i <= j <= n
    ensures m'[a + i..a + j] == m[a + i..a + j]
  {
    SliceSlice(m, a, a + n, i, j);
    SliceSlice(m', a, a + n, i, j);
  }

  /** An entry whose link alone is rewritten. */
  lemma StoredRelinked(m: seq<byte>, p: Placed, link: nat, u: u32)
    requires Stored(m, p, link)
    ensures Stored(SetWord(m, p.pos, u), p, u)
  {
    SetWordHere(m, p.pos, u);
    SetWordElsewhere(m, p.pos, u, p.pos + 4, p.pos + Size(p));
  }

  // ----- eviction of the oldest entry (lines 181-189)

  /** The buffer after line 182: the neighbour of the oldest entry forgets it. */
  function Unlinked(s: Store): (m': seq<byte>)
    requires s.oldest + 4 <= |s.m| && Word(s.m, s.oldest) + 4 <= |s.m|
    requires s.oldest < 0x1_0000_0000
    ensures |m'| == |s.m|
  {
    var pos := Word(s.m, s.oldest);
    XorBound32(Word(s.m, pos), s.oldest);
    SetWord(s.m, pos, Xor(Word(s.m, pos), s.oldest))
  }

  /** The oldest entry's link gives its one neighbour. */
  lemma Neighbour(s: Store, q: seq<Placed>, k: nat)
    requires Rep(s, q, k) && k > 0
    ensures Word(s.m, s.oldest) == Oldest(q[1..], q[0].bucket)
  {
    hide Word, Oldest, Newest;
    assert Stored(s.m, q[0], Link(q, 0));
    OldestLink(q);
  }

  /** Entry `j` is the next newer one in the bucket of the oldest entry. */
  ghost predicate NextInBucket(q: seq<Placed>, j: nat)
  {
    1 <= j < |q| && q[j].bucket == q[0].bucket && NoneIn(q[1..j], q[0].bucket)
  }

  lemma NextExists(q: seq<Placed>) returns (j: nat)
    requires q != [] && !NoneIn(q[1..], q[0].bucket)
    ensures NextInBucket(q, j)
  {
    j := OldestIndex(q[1..], q[0].bucket);
    assert q[1..][..j] == q[1..j + 1];
    j := j + 1;
  }

  lemma NotBetween(q: seq<Placed>, j: nat, i: nat)
    requires NextInBucket(q, j) && 1 <= i < j
    ensures q[i].bucket != q[0].bucket
  {
    assert q[1..j][i - 1] == q[i];
  }

  lemma WordElsewhere(m: seq<byte>, pos: nat, u: u32, h: nat)
    requires pos + 4 <= |m| && h + 4 <= |m| && (h + 4 <= pos || pos + 4 <= h)
    ensures Word(SetWord(m, pos, u), h) == Word(m, h)
  {
    hide Word;
    SetWordElsewhere(m, pos, u, h, h + 4);
    WordSame(m, SetWord(m, pos, u), h);
  }

  lemma NextIsNeighbour(q: seq<Placed>, j: nat)
    requires NextInBucket(q, j)
    ensures Oldest(q[1..], q[0].bucket) == q[j].pos
  {
    assert q[1..][..j - 1] == q[1..j];
    OldestSkip(q[1..], j - 1, q[0].bucket);
    assert q[1..][j - 1..][0] == q[j];
  }

  lemma RepEntry(s: Store, q: seq<Placed>, k: nat, i: nat)
    requires Rep(s, q, k) && i < |q|
    ensures Stored(s.m, q[i], Link(q, i)) && q[i].pos + Size(q[i]) <= |s.m| && Size(q[i]) >= 20
    ensures Word(s.m, q[i].pos) == Link(q, i) && |s.m| < 0x1_0000_0000 && s.oldest <= |s.m|
  {
    hide Word, Link, Heads, Payload, Runs, Sizes;
    RepSizes(s, q, k);
  }

  lemma RepSizes(s: Store, q: seq<Placed>, k: nat)
    requires Rep(s, q, k)
    ensures |s.m| < 0x1_0000_0000 && s.oldest <= |s.m|
    ensures k > 0 ==> k <= |q| && s.oldest + 20 <= |s.m| && q[0].pos == s.oldest
  {
    hide Stored, Heads;
    if k > 0 { assert q[0].pos + Size(q[0]) <= s.unused; }
  }

  lemma UnlinkedWrites(s: Store, pos: nat)
    requires s.oldest + 4 <= |s.m| < 0x1_0000_0000 && Word(s.m, s.oldest) == pos && pos + 4 <= |s.m|
    ensures Xor(Word(s.m, pos), s.oldest) < 0x1_0000_0000
            && Unlinked(s) == SetWord(s.m, pos, Xor(Word(s.m, pos), s.oldest))
  {
    hide Word, SetWord, Xor;
    XorBound32(Word(s.m, pos), s.oldest);
  }

  /** The next newer entry gets its older neighbour removed, and every other entry stays as it is. */
  lemma UnlinkEntry(s: Store, q: seq<Placed>, k: nat, j: nat, i: nat)
    requires Rep(s, q, k) && k > 0 && NextInBucket(q, j) && 1 <= i < |q|
    requires Word(s.m, s.oldest) == q[j].pos && q[j].pos + 4 <= |s.m|
    ensures Stored(Unlinked(s), q[i], Link(q[1..], i - 1))
  {
    hide Word, SetWord, Xor, Newest, Oldest, Payload, Rep, Stored, Unlinked;
    RepPositive(s, q, k);
    RepEntry(s, q, k, i);
    RepEntry(s, q, k, j);
    RepSizes(s, q, k);
    LinkDropFirst(q, i);
    UnlinkedWrites(s, q[j].pos);
    var u := Xor(Word(s.m, q[j].pos), s.oldest);
    XorBound32(Word(s.m, q[j].pos), s.oldest);
    if i == j {
      StoredRelinked(s.m, q[j], Link(q, j), u);
      XorCancel(NewerOf(q, j), s.oldest);
      XorNothing(NewerOf(q, j));
    } else {
      if i < j {
        NotBetween(q, j, i);
        RepApart(s, q, k, i, j);
      } else {
        assert q[1..i][j - 1] == q[j];
        RepApart(s, q, k, j, i);
      }
      SetWordElsewhere(s.m, q[j].pos, u, q[i].pos, q[i].pos + Size(q[i]));
      StoredSame(s.m, Unlinked(s), q[i], Link(q, i));
    }
  }

  lemma UnlinkEntryHead(m: seq<byte>, hsize: nat, q: seq<Placed>, j: nat, u: u32, h: nat)
    requires Heads(m, hsize, q) && Positive(q) && NextInBucket(q, j) && hsize <= q[j].pos && q[j].pos + 4 <= |m|
    requires h + 4 <= hsize && h % 4 == 0
    ensures Word(SetWord(m, q[j].pos, u), h) == Newest(q[1..], h)
  {
    hide Word, SetWord, Newest;
    assert q[1..][j - 1] == q[j];
    assert Word(m, h) == Newest(q, h);
    NewestDropFirst(q, h);
    WordElsewhere(m, q[j].pos, u, h);
  }

  lemma XorNothing(x: nat)
    ensures Xor(x, 0) == x
  {
  }

  /** The oldest entry is alone in its bucket: the head link is cleared and no entry changes. */
  lemma UnlinkHead(s: Store, q: seq<Placed>, k: nat, i: nat)
    requires Rep(s, q, k) && k > 0 && NoneIn(q[1..], q[0].bucket) && 1 <= i < |q|
    requires Word(s.m, s.oldest) == q[0].bucket && q[0].bucket + 4 <= |s.m|
    ensures Stored(Unlinked(s), q[i], Link(q[1..], i - 1))
  {
    hide Word, SetWord, Xor, Newest, Oldest, Payload;
    var b := q[0].bucket;
    RepPositive(s, q, k);
    assert WellFormed(q[0], s.hsize) && WellFormed(q[i], s.hsize) && Stored(s.m, q[i], Link(q, i));
    LinkDropFirst(q, i);
    assert q[1..][i - 1] == q[i];
    var u := Xor(Word(s.m, b), s.oldest);
    XorBound32(Word(s.m, b), s.oldest);
    SetWordElsewhere(s.m, b, u, q[i].pos, q[i].pos + Size(q[i]));
    StoredSame(s.m, Unlinked(s), q[i], Link(q, i));
  }

  lemma UnlinkHeadHead(m: seq<byte>, hsize: nat, q: seq<Placed>, h: nat)
    requires Heads(m, hsize, q) && Positive(q) && q != [] && q[0].bucket + 4 <= hsize && q[0].bucket % 4 == 0
    requires NoneIn(q[1..], q[0].bucket) && h + 4 <= hsize && h % 4 == 0 && q[0].pos < 0x1_0000_0000
    ensures var b := q[0].bucket;
            && Xor(Word(m, b), q[0].pos) < 0x1_0000_0000
            && Word(SetWord(m, b, Xor(Word(m, b), q[0].pos)), h) == Newest(q[1..], h)
  {
    hide Word, SetWord, Newest, Xor;
    var b := q[0].bucket;
    assert Positive(q[1..]);
    var u := Xor(Word(m, b), q[0].pos);
    XorBound32(Word(m, b), q[0].pos);
    assert Word(m, h) == Newest(q, h) && Word(m, b) == Newest(q, b);
    NewestDropFirst(q, h);
    if h == b {
      SetWordHere(m, b, u);
      XorSelf(q[0].pos);
      NewestNone(q[1..], b);
    } else {
      WordElsewhere(m, b, u, h);
    }
  }

  /** The buffer links the queue without its oldest entry. */
  ghost predicate Forgotten(m: seq<byte>, hsize: nat, q: seq<Placed>)
    requires q != []
  {
    && (forall i :: 1 <= i < |q| ==> Stored(m, q[i], Link(q[1..], i - 1)))
    && Heads(m, hsize, q[1..])
  }

  lemma UnlinkAlone(s: Store, q: seq<Placed>, k: nat)
    requires Rep(s, q, k) && k > 0 && NoneIn(q[1..], q[0].bucket)
    ensures Word(s.m, s.oldest) + 4 <= |s.m|
    ensures Forgotten(Unlinked(s), s.hsize, q)
  {
    hide Stored, Newest, Link, Word, SetWord;
    Neighbour(s, q, k);
    RepPositive(s, q, k);
    assert WellFormed(q[0], s.hsize);
    OldestNone(q[1..], q[0].bucket);
    forall i | 1 <= i < |q| ensures Stored(Unlinked(s), q[i], Link(q[1..], i - 1)) { UnlinkHead(s, q, k, i); }
    forall h {:trigger Newest(q[1..], h)} | 0 <= h && h + 4 <= s.hsize && h % 4 == 0
      ensures Word(Unlinked(s), h) == Newest(q[1..], h)
    {
      UnlinkHeadHead(s.m, s.hsize, q, h);
    }
  }

  lemma UnlinkNext(s: Store, q: seq<Placed>, k: nat, j: nat)
    requires Rep(s, q, k) && k > 0 && NextInBucket(q, j)
    ensures Word(s.m, s.oldest) + 4 <= |s.m|
    ensures Forgotten(Unlinked(s), s.hsize, q)
  {
    hide Stored, Newest, Link, Word, SetWord, Xor;
    Neighbour(s, q, k);
    RepPositive(s, q, k);
    NextIsNeighbour(q, j);
    assert WellFormed(q[j], s.hsize) && q[j].pos + Size(q[j]) <= |s.m|;
    XorBound32(Word(s.m, q[j].pos), s.oldest);
    forall i | 1 <= i < |q| ensures Stored(Unlinked(s), q[i], Link(q[1..], i - 1)) { UnlinkEntry(s, q, k, j, i); }
    forall h {:trigger Newest(q[1..], h)} | 0 <= h && h + 4 <= s.hsize && h % 4 == 0
      ensures Word(Unlinked(s), h) == Newest(q[1..], h)
    {
      UnlinkEntryHead(s.m, s.hsize, q, j, Xor(Word(s.m, q[j].pos), s.oldest), h);
    }
  }

  /** The links and heads after the oldest entry is unlinked are those of the queue without it. */
  lemma Unlink(s: Store, q: seq<Placed>, k: nat)
    requires Rep(s, q, k) && k > 0
    ensures Word(s.m, s.oldest) + 4 <= |s.m|
    ensures Forgotten(Unlinked(s), s.hsize, q)
  {
    hide Forgotten, Unlinked, Word;
    if NoneIn(q[1..], q[0].bucket) {
      UnlinkAlone(s, q, k);
    } else {
      var j := NextExists(q);
      UnlinkNext(s, q, k, j);
    }
  }

  /** The store after one round of eviction (lines 181-189). */
  function Evicted(s: Store): Store
    requires s.oldest + 12 <= |s.m| < 0x1_0000_0000 && Word(s.m, s.oldest) + 4 <= |s.m|
  {
    var m := Unlinked(s);
    var next := s.oldest + Word(m, s.oldest + 4) + Word(m, s.oldest + 8) + 20;
    if next == s.unused then Store(m, s.hsize, s.writer, |m|, |m|) else Store(m, s.hsize, s.writer, next, s.unused)
  }

  /** The lengths stored in an entry. */
  lemma StoredLengths(m: seq<byte>, p: Placed, link: nat)
    requires Stored(m, p, link)
    ensures Word(m, p.pos + 4) == |p.e.key| && Word(m, p.pos + 8) == |p.e.data|
  {
    hide Payload, Pack32;
    var a, n := p.pos, Size(p);
    PayloadLengths(p.e);
    SliceSlice(m, a + 4, a + n, 0, 4);
    SliceSlice(m, a + 4, a + n, 4, 8);
    UnpackPack32(|p.e.key|);
    UnpackPack32(|p.e.data|);
    WordOf(m, a + 4);
    WordOf(m, a + 8);
  }

  lemma PayloadLengths(e: Entry)
    requires |e.key| <= MAXKEYLEN && |e.data| <= MAXDATALEN
    ensures Payload(e)[..4] == Pack32(|e.key|) && Payload(e)[4..8] == Pack32(|e.data|)
  {
    var rest := ToLe(e.expire, 7) + [e.flags] + e.key + e.data;
    assert Payload(e) == Pack32(|e.key|) + Pack32(|e.data|) + rest;
  }

  lemma WordOf(m: seq<byte>, pos: nat)
    requires pos + 4 <= |m|
    ensures Word(m, pos) == Unpack32(m[pos..pos + 4], 0)
  {
  }

  /** The neighbour's link lies outside the lengths of the oldest entry. */
  lemma UnlinkedLengths(s: Store, q: seq<Placed>, k: nat)
    requires Rep(s, q, k) && k > 0 && Word(s.m, s.oldest) + 4 <= |s.m|
    ensures Word(Unlinked(s), s.oldest + 4) == |q[0].e.key| && Word(Unlinked(s), s.oldest + 8) == |q[0].e.data|
  {
    hide Word, SetWord, Payload, Newest, Oldest, Xor;
    assert Stored(s.m, q[0], Link(q, 0)) && WellFormed(q[0], s.hsize);
    StoredLengths(s.m, q[0], Link(q, 0));
    Neighbour(s, q, k);
    var pos := Word(s.m, s.oldest);
    XorBound32(Word(s.m, pos), s.oldest);
    var u := Xor(Word(s.m, pos), s.oldest);
    if NoneIn(q[1..], q[0].bucket) {
      OldestNone(q[1..], q[0].bucket);
    } else {
      var j := OldestIndex(q[1..], q[0].bucket);
      assert q[1..][j] == q[j + 1] && Apart(q[0], q[j + 1]);
    }
    WordElsewhere(s.m, pos, u, s.oldest + 4);
    WordElsewhere(s.m, pos, u, s.oldest + 8);
  }

  lemma EvictRuns(s: Store, q: seq<Placed>, k: nat, s': Store)
    requires Sizes(s) && Runs(s, q, k) && k > 0 && |s'.m| == |s.m| && s'.hsize == s.hsize && s'.writer == s.writer
    requires var next := s.oldest + Size(q[0]);
             if next == s.unused then s'.oldest == s'.unused == |s.m| else s'.oldest == next && s'.unused == s.unused
    ensures Runs(s', q[1..], k - 1)
  {
    hide Apart, WellFormed;
    var r := q[1..];
    assert k > 1 ==> q[1].pos == q[0].pos + Size(q[0]) && q[1].pos + Size(q[1]) <= s.unused;
    forall i | 0 <= i < |r| ensures WellFormed(r[i], s'.hsize) { assert r[i] == q[i + 1]; }
    forall i | 0 <= i < k - 1 ensures s'.oldest <= r[i].pos && r[i].pos + Size(r[i]) <= s'.unused {
      assert r[i] == q[i + 1];
      if i > 0 { RunsInOrder(s, q, k, 1, i + 1); }
    }
    forall i | k - 1 <= i < |r| ensures r[i].pos + Size(r[i]) <= s'.writer { assert r[i] == q[i + 1]; }
    EvictPairs(s, q, k);
  }

  lemma EvictPairs(s: Store, q: seq<Placed>, k: nat)
    requires Runs(s, q, k) && k > 0
    ensures var r := q[1..];
            && (forall i, j :: 0 <= i < j < |r| ==> Apart(r[i], r[j]))
            && (forall i, j :: 0 <= i < j < |r| && j == i + 1 && j != k - 1 ==> r[j].pos == r[i].pos + Size(r[i]))
  {
    var r := q[1..];
    forall i, j | 0 <= i < j < |r| ensures Apart(r[i], r[j]) { assert Apart(q[i + 1], q[j + 1]); }
    forall i, j | 0 <= i < j < |r| && j == i + 1 && j != k - 1 ensures r[j].pos == r[i].pos + Size(r[i]) {
      assert q[j + 1].pos == q[i + 1].pos + Size(q[i + 1]);
    }
  }

  /** Within a run the entries lie in queue order. */
  lemma {:induction false} RunsInOrder(s: Store, q: seq<Placed>, k: nat, i: nat, j: nat)
    requires Runs(s, q, k) && i < j < |q| && (j < k || k <= i)
    ensures q[i].pos + Size(q[i]) <= q[j].pos
    decreases j
  {
    if j > i + 1 { RunsInOrder(s, q, k, i, j - 1); }
    assert q[j].pos == q[j - 1].pos + Size(q[j - 1]);
  }

  lemma ForgottenStored(m: seq<byte>, hsize: nat, q: seq<Placed>)
    requires q != [] && Forgotten(m, hsize, q)
    ensures Heads(m, hsize, q[1..])
    ensures forall i :: 0 <= i < |q[1..]| ==> Stored(m, q[1..][i], Link(q[1..], i))
  {
    hide Stored, Link, Heads;
    var r := q[1..];
    forall i | 0 <= i < |r| ensures Stored(m, r[i], Link(r, i)) {
      assert Stored(m, q[i + 1], Link(q[1..], i + 1 - 1));
    }
  }

  /** Eviction keeps the invariant: the buffer represents the queue without its oldest entry. */
  lemma EvictRep(s: Store, q: seq<Placed>, k: nat)
    requires Rep(s, q, k) && k > 0
    ensures s.oldest + 12 <= |s.m| && Word(s.m, s.oldest) + 4 <= |s.m|
    ensures Rep(Evicted(s), q[1..], k - 1)
  {
    hide Word, Stored, Link, Heads, Forgotten, Unlinked;
    Unlink(s, q, k);
    UnlinkedLengths(s, q, k);
    ForgottenStored(Unlinked(s), s.hsize, q);
    assert q[0].pos + Size(q[0]) <= s.unused;
    hide Runs;
    EvictRuns(s, q, k, Evicted(s));
  }

  // ----- starting a new lap (lines 174-179)

  function Wrapped(s: Store): Store { Store(s.m, s.hsize, s.hsize, s.hsize, s.writer) }

  lemma WrapRep(s: Store, q: seq<Placed>, k: nat)
    requires Rep(s, q, k) && s.oldest == s.unused && s.writer > s.hsize
    ensures k == 0 && q != [] && Rep(Wrapped(s), q, |q|)
  {
    hide Stored, Link, Newest;
    assert k > 0 ==> q[0].pos + Size(q[0]) <= s.unused;
    forall i | 0 <= i < |q| ensures s.hsize <= q[i].pos && q[i].pos + Size(q[i]) <= s.writer {
      assert WellFormed(q[i], s.hsize);
    }
  }

  // ----- insertion (lines 192-206)

  /** Lines 194-196: the newest entry of the bucket, if any, learns of its newer neighbour. */
  function Relinked(m: seq<byte>, b: nat, w: nat): (m': seq<byte>)
    requires b + 4 <= |m| < 0x1_0000_0000 && w < 0x1_0000_0000 && Word(m, b) + 4 <= |m|
    ensures |m'| == |m|
  {
    var pos := Word(m, b);
    if pos == 0 then m
    else
      XorBound32(Word(m, pos), b);
      XorBound32(Xor(Word(m, pos), b), w);
      SetWord(m, pos, Xor(Xor(Word(m, pos), b), w))
  }

  /** Lines 197-203: the link and the payload of the new entry. */
  function NewBytes(m: seq<byte>, p: Placed): (s: seq<byte>)
    requires p.bucket + 4 <= |m| < 0x1_0000_0000 && |p.e.key| <= MAXKEYLEN && |p.e.data| <= MAXDATALEN
    ensures |s| == Size(p)
  {
    XorBound32(Word(m, p.bucket), p.bucket);
    Pack32(Xor(Word(m, p.bucket), p.bucket)) + Payload(p.e)
  }

  /** The buffer after lines 194-205. */
  function InsertedBytes(m: seq<byte>, p: Placed): (m': seq<byte>)
    requires p.bucket + 4 <= |m| < 0x1_0000_0000 && |p.e.key| <= MAXKEYLEN && |p.e.data| <= MAXDATALEN
    requires Word(m, p.bucket) + 4 <= |m| && p.pos + Size(p) <= |m|
    ensures |m'| == |m|
  {
    SetWord(Splice(Relinked(m, p.bucket, p.pos), p.pos, NewBytes(m, p)), p.bucket, p.pos)
  }

  function Inserted(s: Store, p: Placed): Store
    requires p.bucket + 4 <= |s.m| < 0x1_0000_0000 && |p.e.key| <= MAXKEYLEN && |p.e.data| <= MAXDATALEN
    requires Word(s.m, p.bucket) + 4 <= |s.m| && p.pos + Size(p) <= |s.m|
  {
    Store(InsertedBytes(s.m, p), s.hsize, s.writer + Size(p), s.oldest, s.unused)
  }

  ghost predicate Insertable(m: seq<byte>, p: Placed)
  {
    && p.bucket + 4 <= p.pos && p.pos + Size(p) <= |m| < 0x1_0000_0000
    && |p.e.key| <= MAXKEYLEN && |p.e.data| <= MAXDATALEN && Word(m, p.bucket) + 4 <= |m|
  }

  /** A new entry that fits in the free space. */
  ghost predicate Fits(s: Store, p: Placed)
  {
    p.pos == s.writer && s.writer + Size(p) <= s.oldest && WellFormed(p, s.hsize)
  }

  lemma FreeSpace(s: Store, q: seq<Placed>, k: nat, p: Placed, i: nat)
    requires Rep(s, q, k) && Fits(s, p) && i < |q|
    ensures Apart(q[i], p) && s.hsize <= q[i].pos && q[i].pos + Size(q[i]) <= |s.m|
  {
    assert WellFormed(q[i], s.hsize);
  }

  /** The bytes of a region outside the new entry, the head link and the relinked word stay. */
  lemma InsertElsewhere(m: seq<byte>, p: Placed, a: nat, b: nat)
    requires p.bucket + 4 <= |m| < 0x1_0000_0000 && |p.e.key| <= MAXKEYLEN && |p.e.data| <= MAXDATALEN
    requires Word(m, p.bucket) + 4 <= |m| && p.pos + Size(p) <= |m| && a <= b <= |m|
    requires b <= p.pos || p.pos + Size(p) <= a
    requires b <= p.bucket || p.bucket + 4 <= a
    ensures InsertedBytes(m, p)[a..b] == Relinked(m, p.bucket, p.pos)[a..b]
  {
    hide SetWord, Splice, NewBytes, Relinked;
    var m1 := Relinked(m, p.bucket, p.pos);
    var m2 := Splice(m1, p.pos, NewBytes(m, p));
    SpliceElsewhere(m1, p.pos, NewBytes(m, p), a, b);
    SetWordElsewhere(m2, p.bucket, p.pos, a, b);
  }

  /** Inserting does not change what an older entry of another bucket, or an older one of the same bucket, stores. */
  lemma InsertOther(s: Store, q: seq<Placed>, k: nat, p: Placed, i: nat)
    requires Rep(s, q, k) && Fits(s, p) && i < |q| && Word(s.m, p.bucket) + 4 <= |s.m|
    requires q[i].bucket != p.bucket || !NoneIn(q[i + 1..], p.bucket)
    ensures Stored(InsertedBytes(s.m, p), q[i], Link(q + [p], i))
  {
    hide Word, SetWord, Xor, Newest, Oldest, Payload, InsertedBytes;
    FreeSpace(s, q, k, p, i);
    assert Stored(s.m, q[i], Link(q, i));
    LinkAppend(q, p, i);
    InsertElsewhere(s.m, p, q[i].pos, q[i].pos + Size(q[i]));
    NewestApart(s, q, k, p.bucket, i);
    RelinkedElsewhere(s.m, p.bucket, p.pos, q[i].pos, q[i].pos + Size(q[i]));
    StoredSame(s.m, InsertedBytes(s.m, p), q[i], Link(q, i));
  }

  /** The newest entry of a bucket lies apart from every entry that is not the newest of that bucket. */
  lemma NewestApart(s: Store, q: seq<Placed>, k: nat, b: nat, i: nat)
    requires Rep(s, q, k) && i < |q| && b + 4 <= s.hsize && b % 4 == 0
    requires q[i].bucket != b || !NoneIn(q[i + 1..], b)
    ensures var pos := Word(s.m, b); pos == 0 || q[i].pos + Size(q[i]) <= pos || pos + 4 <= q[i].pos
  {
    hide Word, Newest;
    assert Word(s.m, b) == Newest(q, b);
    if Newest(q, b) != 0 {
      var j := NewestIndex(q, b);
      RepApart(s, q, k, i, j);
    }
  }

  lemma RelinkedElsewhere(m: seq<byte>, b: nat, w: nat, a: nat, c: nat)
    requires b + 4 <= |m| < 0x1_0000_0000 && w < 0x1_0000_0000 && Word(m, b) + 4 <= |m| && a <= c <= |m|
    requires Word(m, b) == 0 || c <= Word(m, b) || Word(m, b) + 4 <= a
    ensures Relinked(m, b, w)[a..c] == m[a..c]
  {
    hide Word, SetWord, Xor;
    var pos := Word(m, b);
    if pos != 0 {
      XorBound32(Word(m, pos), b);
      XorBound32(Xor(Word(m, pos), b), w);
      SetWordElsewhere(m, pos, Xor(Xor(Word(m, pos), b), w), a, c);
    }
  }

  lemma RepApart(s: Store, q: seq<Placed>, k: nat, i: nat, j: nat)
    requires Rep(s, q, k) && i < |q| && j < |q| && i != j
    ensures Apart(q[i], q[j]) && s.hsize <= q[j].pos && q[j].pos + Size(q[j]) <= |s.m|
  {
    assert WellFormed(q[j], s.hsize);
    if i < j { assert Apart(q[i], q[j]); } else { assert Apart(q[j], q[i]); }
  }

  /** The newest entry of the bucket gets the new entry for a neighbour in place of the head link. */
  lemma InsertNeighbour(s: Store, q: seq<Placed>, k: nat, p: Placed, i: nat)
    requires Rep(s, q, k) && Fits(s, p) && i < |q| && Word(s.m, p.bucket) + 4 <= |s.m|
    requires q[i].bucket == p.bucket && NoneIn(q[i + 1..], p.bucket)
    ensures Stored(InsertedBytes(s.m, p), q[i], Link(q + [p], i))
  {
    hide Word, Xor, Newest, Oldest, Payload, InsertedBytes;
    var b := p.bucket;
    FreeSpace(s, q, k, p, i);
    assert Stored(s.m, q[i], Link(q, i)) && WellFormed(q[i], s.hsize);
    assert Word(s.m, b) == Newest(q, b);
    assert Insertable(s.m, p);
    hide Rep;
    LinkAppend(q, p, i);
    OldestNone(q[i + 1..], b);
    NewestHere(q, i);
    SwapNeighbour(b, OlderOf(q, i), p.pos);
    InsertOverHead(s.m, p, q[i], Link(q, i));
  }

  lemma InsertOverHead(m: seq<byte>, p: Placed, n: Placed, link: u32)
    requires Insertable(m, p) && Stored(m, n, link) && Word(m, p.bucket) == n.pos > 0 && Apart(n, p)
    requires p.bucket + 4 <= n.pos
    ensures Stored(InsertedBytes(m, p), n, Xor(Xor(link, p.bucket), p.pos))
  {
    hide Word, SetWord, Xor, Payload, InsertedBytes;
    var b, w := p.bucket, p.pos;
    XorBound32(link, b);
    XorBound32(Xor(link, b), w);
    var u := Xor(Xor(link, b), w);
    StoredRelinked(m, n, link, u);
    InsertElsewhere(m, p, n.pos, n.pos + Size(n));
    StoredSame(Relinked(m, b, w), InsertedBytes(m, p), n, u);
  }

  lemma SwapNeighbour(b: nat, o: nat, w: nat)
    ensures Xor(Xor(Xor(b, o), b), w) == Xor(w, o)
  {
    XorCancel(b, o);
    XorComm(o, w);
  }

  lemma NewestHere(q: seq<Placed>, i: nat)
    requires i < |q| && NoneIn(q[i + 1..], q[i].bucket)
    ensures Newest(q, q[i].bucket) == q[i].pos
  {
    NewestSkip(q, i + 1, q[i].bucket);
    assert q[..i + 1][i] == q[i];
  }

  /** The new entry itself. */
  lemma InsertNew(m: seq<byte>, p: Placed)
    requires Insertable(m, p)
    ensures Stored(InsertedBytes(m, p), p, Xor(Word(m, p.bucket), p.bucket))
  {
    hide Word, SetWord, Splice, Xor, Payload, Pack32, Relinked;
    var b, w, n := p.bucket, p.pos, Size(p);
    XorBound32(Word(m, b), b);
    var m1 := Relinked(m, b, w);
    var bytes := NewBytes(m, p);
    var m2 := Splice(m1, w, bytes);
    SpliceHere(m1, w, bytes);
    StoredFresh(m2, p, Xor(Word(m, b), b), bytes);
    SetWordElsewhere(m2, b, w, w, w + n);
    StoredSame(m2, InsertedBytes(m, p), p, Xor(Word(m, b), b));
  }

  lemma StoredFresh(m: seq<byte>, p: Placed, link: u32, bytes: seq<byte>)
    requires |p.e.key| <= MAXKEYLEN && |p.e.data| <= MAXDATALEN && bytes == Pack32(link) + Payload(p.e)
    requires p.pos + Size(p) <= |m| && m[p.pos..p.pos + Size(p)] == bytes
    ensures Stored(m, p, link)
  {
    hide Payload, Pack32;
    var a, n := p.pos, Size(p);
    SliceSlice(m, a, a + n, 0, 4);
    SliceSlice(m, a, a + n, 4, n);
    assert bytes[0..4] == Pack32(link) && bytes[4..n] == Payload(p.e);
    WordOf(m, a);
    UnpackPack32(link);
  }

  lemma InsertOwnHead(m: seq<byte>, p: Placed)
    requires Insertable(m, p)
    ensures Word(InsertedBytes(m, p), p.bucket) == p.pos
  {
    hide Word, Splice, NewBytes, Relinked, SetWord;
    SetWordHere(Splice(Relinked(m, p.bucket, p.pos), p.pos, NewBytes(m, p)), p.bucket, p.pos);
  }

  lemma InsertOtherHead(m: seq<byte>, p: Placed, h: nat)
    requires Insertable(m, p) && h + 4 <= p.pos && (h + 4 <= p.bucket || p.bucket + 4 <= h)
    requires Word(m, p.bucket) == 0 || h + 4 <= Word(m, p.bucket)
    ensures Word(InsertedBytes(m, p), h) == Word(m, h)
  {
    hide Word, InsertedBytes, Relinked;
    InsertElsewhere(m, p, h, h + 4);
    RelinkedElsewhere(m, p.bucket, p.pos, h, h + 4);
    WordSame(m, InsertedBytes(m, p), h);
  }

  lemma InsertHead(s: Store, q: seq<Placed>, k: nat, p: Placed, h: nat)
    requires Rep(s, q, k) && Fits(s, p) && Insertable(s.m, p)
    requires h + 4 <= s.hsize && h % 4 == 0
    ensures Word(InsertedBytes(s.m, p), h) == Newest(q + [p], h)
  {
    hide Word, Newest, InsertedBytes;
    assert Word(s.m, h) == Newest(q, h) && Word(s.m, p.bucket) == Newest(q, p.bucket);
    NewestAbove(s, q, k, p.bucket);
    MultiplesOf4(h, p.bucket);
    assert h + 4 <= p.pos;
    hide Rep;
    NewestAppend(q, p, h);
    if h == p.bucket {
      InsertOwnHead(s.m, p);
    } else {
      InsertOtherHead(s.m, p, h);
    }
  }

  lemma MultiplesOf4(a: nat, b: nat)
    ensures a % 4 == 0 && b % 4 == 0 && a != b ==> a + 4 <= b || b + 4 <= a
  {
  }

  lemma NewestAbove(s: Store, q: seq<Placed>, k: nat, b: nat)
    requires Rep(s, q, k)
    ensures Newest(q, b) == 0 || s.hsize <= Newest(q, b) <= |s.m| - 20
  {
    hide Newest;
    if Newest(q, b) != 0 {
      var j := NewestIndex(q, b);
      assert WellFormed(q[j], s.hsize) && q[j].pos + Size(q[j]) <= |s.m|;
    }
  }

  lemma FitsInsertable(s: Store, q: seq<Placed>, k: nat, p: Placed)
    requires Rep(s, q, k) && Fits(s, p)
    ensures Insertable(s.m, p) && Word(s.m, p.bucket) == Newest(q, p.bucket)
  {
    hide Newest, Word;
    assert Word(s.m, p.bucket) == Newest(q, p.bucket);
    NewestAbove(s, q, k, p.bucket);
  }

  lemma InsertRuns(s: Store, q: seq<Placed>, k: nat, p: Placed, s': Store)
    requires Sizes(s) && Runs(s, q, k) && Fits(s, p) && |s'.m| == |s.m| && s'.hsize == s.hsize
    requires s'.writer == s.writer + Size(p) && s'.oldest == s.oldest && s'.unused == s.unused
    ensures Runs(s', q + [p], k)
  {
    hide WellFormed;
    var r := q + [p];
    forall i | 0 <= i < |r| ensures WellFormed(r[i], s'.hsize) { assert i < |q| ==> WellFormed(q[i], s.hsize); }
    InsertPairs(s, q, k, p);
  }

  lemma InsertPairs(s: Store, q: seq<Placed>, k: nat, p: Placed)
    requires Runs(s, q, k) && Fits(s, p)
    ensures var r := q + [p];
            && (forall i, j :: 0 <= i < j < |r| ==> Apart(r[i], r[j]))
            && (forall i, j :: 0 <= i < j < |r| && j == i + 1 && j != k ==> r[j].pos == r[i].pos + Size(r[i]))
  {
    var r := q + [p];
    forall i, j | 0 <= i < j < |r| ensures Apart(r[i], r[j]) { assert j < |q| ==> Apart(q[i], q[j]); }
    forall i, j | 0 <= i < j < |r| && j == i + 1 && j != k ensures r[j].pos == r[i].pos + Size(r[i]) {
    }
  }

  /** Insertion keeps the invariant: the buffer represents the queue with the new entry at its new end. */
  lemma InsertRep(s: Store, q: seq<Placed>, k: nat, p: Placed)
    requires Rep(s, q, k) && Fits(s, p)
    ensures Word(s.m, p.bucket) + 4 <= |s.m|
    ensures Rep(Inserted(s, p), q + [p], k)
  {
    hide Stored, Link, Newest, Word, InsertedBytes;
    FitsInsertable(s, q, k, p);
    var s' := Inserted(s, p);
    var r := q + [p];
    InsertRuns(s, q, k, p, s');
    forall i | 0 <= i < |r| ensures Stored(s'.m, r[i], Link(r, i)) {
      if i == |q| {
        InsertNew(s.m, p);
        XorComm(Word(s.m, p.bucket), p.bucket);
        LinkLast(q, p);
      } else if q[i].bucket == p.bucket && NoneIn(q[i + 1..], p.bucket) {
        InsertNeighbour(s, q, k, p, i);
      } else {
        InsertOther(s, q, k, p, i);
      }
    }
    forall h {:trigger Newest(r, h)} | 0 <= h && h + 4 <= s.hsize && h % 4 == 0 ensures Word(s'.m, h) == Newest(r, h) {
      InsertHead(s, q, k, p, h);
    }
  }

  /** The rest of what an entry stores. */
  lemma StoredParts(m: seq<byte>, p: Placed, link: nat)
    requires Stored(m, p, link)
    ensures var a, n := p.pos, |p.e.key|;
            && m[a + 12..a + 19] == ToLe(p.e.expire, 7) && m[a + 19] == p.e.flags
            && m[a + 20..a + 20 + n] == p.e.key && m[a + 20 + n..a + Size(p)] == p.e.data
  {
    hide Payload, ToLe;
    var a, n, l := p.pos, |p.e.key|, Size(p);
    PayloadParts(p.e);
    SliceSlice(m, a + 4, a + l, 8, 15);
    SliceSlice(m, a + 4, a + l, 15, 16);
    SliceSlice(m, a + 4, a + l, 16, 16 + n);
    SliceSlice(m, a + 4, a + l, 16 + n, l - 4);
    assert m[a + 19..a + 20][0] == m[a + 19];
  }

  lemma PayloadParts(e: Entry)
    requires |e.key| <= MAXKEYLEN && |e.data| <= MAXDATALEN
    ensures var s, n := Payload(e), |e.key|;
            && s[8..15] == ToLe(e.expire, 7) && s[15..16] == [e.flags] && s[16..16 + n] == e.key
               && s[16 + n..Len(e) - 4] == e.data
  {
    hide Pack32, ToLe;
    var s, n := Payload(e), |e.key|;
    var head := Pack32(|e.key|) + Pack32(|e.data|);
    assert s == head + ToLe(e.expire, 7) + [e.flags] + e.key + e.data;
  }
}
