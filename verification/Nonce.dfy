/**
Nonces that never repeat (`dq/dns_nonce.c`): a counter that follows the clock and never goes back,
encrypted with TEA, after a byte whose leading bits keep processes apart.
*/
module Nonce {
  import opened Bits
  import opened Bytes

  // ----- TEA

  /** Half a round, lines 75 and 76. */
  function Mix(v: u32, sum: u32, ka: u32, kb: u32): (r: nat)
  {
    Xor(Xor(U32(v * 16 + ka), U32(v + sum)), U32(v / 32 + kb))
  }

  datatype Block = Block(v0: u32, v1: u32)

  datatype Key = Key(k0: u32, k1: u32, k2: u32, k3: u32)

  function Round(b: Block, sum: u32, k: Key): Block
  {
    var v0 := U32(b.v0 + Mix(b.v1, sum, k.k0, k.k1));
    Block(v0, U32(b.v1 + Mix(v0, sum, k.k2, k.k3)))
  }

  function Unround(b: Block, sum: u32, k: Key): Block
  {
    var v1 := U32(b.v1 - Mix(b.v0, sum, k.k2, k.k3));
    Block(U32(b.v0 - Mix(v1, sum, k.k0, k.k1)), v1)
  }

  lemma WrapBack(a: u32, m: nat)
    ensures U32(U32(a + m) - m) == a
  {
    var q, r := (a + m) / 0x1_0000_0000, (a + m) % 0x1_0000_0000;
    assert r - m == a - q * 0x1_0000_0000;
    DivModUnique(r - m, 0x1_0000_0000, -q, a);
  }

  lemma UnroundRound(b: Block, sum: u32, k: Key)
    ensures Unround(Round(b, sum, k), sum, k) == b
  {
    hide Mix;
    var v0 := U32(b.v0 + Mix(b.v1, sum, k.k0, k.k1));
    WrapBack(b.v1, Mix(v0, sum, k.k2, k.k3));
    WrapBack(b.v0, Mix(b.v1, sum, k.k0, k.k1));
  }

  function Sum(i: nat): u32 { U32(i * 0x9e3779b9) }

  /** The first `n` rounds. */
  function Rounds(b: Block, n: nat, k: Key): Block
  {
    if n == 0 then b else Round(Rounds(b, n - 1, k), Sum(n), k)
  }

  lemma {:induction false} RoundsInjective(a: Block, b: Block, n: nat, k: Key)
    requires Rounds(a, n, k) == Rounds(b, n, k)
    ensures a == b
    decreases n
  {
    hide Round, Unround;
    if n != 0 {
      UnroundRound(Rounds(a, n - 1, k), Sum(n), k);
      UnroundRound(Rounds(b, n - 1, k), Sum(n), k);
      RoundsInjective(a, b, n - 1, k);
    }
  }

  function KeyOf(k: seq<byte>): Key
    requires |k| == 16
  {
    Key(Unpack32(k, 0), Unpack32(k, 4), Unpack32(k, 8), Unpack32(k, 12))
  }

  function Halves(x: u64): Block { Block(x % 0x1_0000_0000, x / 0x1_0000_0000) }

  /** TEA of a 64-bit number as eight bytes. */
  function Tea(x: u64, k: seq<byte>): (s: seq<byte>)
    requires |k| == 16
    ensures |s| == 8
  {
    var b := Rounds(Halves(x), 32, KeyOf(k));
    Pack32(b.v0) + Pack32(b.v1)
  }

  /** Different counters give different bytes. */
  lemma TeaInjective(x: u64, y: u64, k: seq<byte>)
    requires |k| == 16 && Tea(x, k) == Tea(y, k)
    ensures x == y
  {
    hide Rounds, Pack32;
    var a, b := Rounds(Halves(x), 32, KeyOf(k)), Rounds(Halves(y), 32, KeyOf(k));
    assert Tea(x, k)[..4] == Pack32(a.v0) && Tea(x, k)[4..] == Pack32(a.v1);
    assert Tea(y, k)[..4] == Pack32(b.v0) && Tea(y, k)[4..] == Pack32(b.v1);
    UnpackPack32(a.v0);
    UnpackPack32(a.v1);
    UnpackPack32(b.v0);
    UnpackPack32(b.v1);
    RoundsInjective(Halves(x), Halves(y), 32, KeyOf(k));
  }

  /** `dns_nonce_encrypt`, lines 58-80. */
  method Encrypt(x: u64, k: seq<byte>) returns (out: seq<byte>)
    requires |k| == 16
    ensures out == Tea(x, k)
  {
    hide Mix;
    var sum: u32 := 0;
    var v0: u32, v1: u32 := U32(x), U32(x / 0x1_0000_0000);
    var k0, k1, k2, k3 := Unpack32(k, 0), Unpack32(k, 4), Unpack32(k, 8), Unpack32(k, 12);
    for i := 0 to 32
      invariant sum == Sum(i) && Block(v0, v1) == Rounds(Halves(x), i, KeyOf(k))
    {
      SumNext(i);
      sum := U32(sum + 0x9e3779b9);
      v0 := U32(v0 + Mix(v1, sum, k0, k1));
      v1 := U32(v1 + Mix(v0, sum, k2, k3));
    }
    out := Pack32(v0) + Pack32(v1);
  }

  lemma SumNext(i: nat)
    ensures U32(Sum(i) + 0x9e3779b9) == Sum(i + 1)
  {
    var s := i * 0x9e3779b9;
    assert (i + 1) * 0x9e3779b9 == s + 0x9e3779b9;
    var q, r := s / 0x1_0000_0000, s % 0x1_0000_0000;
    var q2, r2 := (r + 0x9e3779b9) / 0x1_0000_0000, (r + 0x9e3779b9) % 0x1_0000_0000;
    DivModUnique(s + 0x9e3779b9, 0x1_0000_0000, q + q2, r2);
  }

  // ----- separation

  /** The bits a string starts with, at most eight. */
  function Leading(ns: seq<byte>): (b: seq<byte>)
    ensures |b| <= |ns| && b == ns[..|b|] && forall i :: 0 <= i < |b| ==> b[i] in {48, 49}
    ensures |b| < |ns| ==> ns[|b|] !in {48, 49}
  {
    if ns == [] || ns[0] !in {48, 49} then [] else [ns[0]] + Leading(ns[1..])
  }

  function BitsValue(b: seq<byte>): (v: nat)
    requires forall i :: 0 <= i < |b| ==> b[i] in {48, 49}
    ensures v < Pow2(|b|)
  {
    if b == [] then 0 else 2 * BitsValue(b[..|b| - 1]) + (b[|b| - 1] - 48)
  }

  /** Numbers of different bit strings of one length differ. */
  lemma {:induction false} BitsValueInjective(a: seq<byte>, b: seq<byte>)
    requires |a| == |b| && (forall i :: 0 <= i < |a| ==> a[i] in {48, 49})
             && (forall i :: 0 <= i < |b| ==> b[i] in {48, 49})
    requires BitsValue(a) == BitsValue(b)
    ensures a == b
  {
    if a != [] {
      var n := |a| - 1;
      BitsValueInjective(a[..n], b[..n]);
      assert a == a[..n] + [a[n]] && b == b[..n] + [b[n]];
    }
  }

  lemma {:induction false} BitsValuePrefix(b: seq<byte>, n: nat)
    requires (forall i :: 0 <= i < |b| ==> b[i] in {48, 49}) && n <= |b|
    ensures BitsValue(b) / Pow2(|b| - n) == BitsValue(b[..n])
    decreases |b|
  {
    hide Pow2;
    if n == |b| {
      assert b[..n] == b;
      NoShift();
    } else {
      var k := |b| - 1;
      var c := b[..k];
      BitsValuePrefix(c, n);
      assert c[..n] == b[..n];
      Pow2Next(k - n);
      assert BitsValue(b) / 2 == BitsValue(c);
      DivModBase(BitsValue(b), 2, Pow2(k - n));
    }
  }

  lemma Pow2Next(n: nat)
    ensures Pow2(n + 1) == 2 * Pow2(n)
  {
  }

  // ----- the generator

  /** Mask and separation bits of the first byte for a start string, lines 33-51. */
  function Mask(ns: seq<byte>): nat
    requires |Leading(ns)| <= 8
  {
    Pow2(8 - |Leading(ns)|) - 1
  }

  function Separation(ns: seq<byte>): nat
    requires |Leading(ns)| <= 8
  {
    BitsValue(Leading(ns)) * Pow2(8 - |Leading(ns)|)
  }

  function CharAt(ns: seq<byte>, i: nat): byte { if i < |ns| then ns[i] else 0 }

  /** The first byte of a nonce, lines 98-102. */
  function FirstByte(r: byte, ns: seq<byte>): nat
    requires |Leading(ns)| <= 8
  {
    And(r, Mask(ns)) + Separation(ns)
  }

  /** The first byte is a byte, and begins with the bits of the start string. */
  lemma FirstByteLeads(r: byte, ns: seq<byte>)
    requires |Leading(ns)| <= 8
    ensures FirstByte(r, ns) < 256 && FirstByte(r, ns) / Pow2(8 - |Leading(ns)|) == BitsValue(Leading(ns))
  {
    hide And, BitsValue, Leading, Pow2;
    var l, b := |Leading(ns)|, BitsValue(Leading(ns));
    var p := Pow2(8 - l);
    Pow2Add(l, 8 - l);
    Pow2At8();
    LeadSum(And(r, p - 1), b, p, Pow2(l));
  }

  lemma LeadSum(a: nat, b: nat, p: nat, q: nat)
    requires a < p && b < q && q * p == 256
    ensures a + b * p < 256 && (a + b * p) / p == b
  {
    DivModUnique(a + b * p, p, b, a);
    MulMono(b + 1, q, p);
    assert (b + 1) * p == b * p + p;
  }

  lemma MulMono(a: nat, b: nat, p: nat)
    requires a <= b
    ensures a * p <= b * p
  {
  }

  /** A nonce begins with the bits of the start string. */
  ghost predicate Leads(n: seq<byte>, ns: seq<byte>)
    requires |Leading(ns)| <= 8
  {
    n != [] && n[0] / Pow2(8 - |Leading(ns)|) == BitsValue(Leading(ns))
  }

  ghost predicate AllLead(nonces: seq<seq<byte>>, ns: seq<byte>)
    requires |Leading(ns)| <= 8
  {
    forall i :: 0 <= i < |nonces| ==> Leads(nonces[i], ns)
  }

  /** The bits of the two start strings a nonce begins with are a prefix of one another. */
  lemma LeadsBoth(n: seq<byte>, ns: seq<byte>, ns2: seq<byte>)
    requires |Leading(ns)| <= |Leading(ns2)| <= 8 && Leads(n, ns) && Leads(n, ns2)
    ensures Leading(ns) <= Leading(ns2)
  {
    hide BitsValue, Leading;
    var a, b, x := Leading(ns), Leading(ns2), n[0];
    var k := |b| - |a|;
    BitsValuePrefix(b, |a|);
    Pow2Add(8 - |b|, k);
    assert 8 - |b| + k == 8 - |a|;
    DivModBase(x, Pow2(8 - |b|), Pow2(k));
    BitsValueInjective(a, b[..|a|]);
  }

  /** Neither start string's bits are a prefix of the other's. */
  ghost predicate Unrelated(ns: seq<byte>, ns2: seq<byte>)
  {
    !(Leading(ns) <= Leading(ns2)) && !(Leading(ns2) <= Leading(ns))
  }

  /**
  Two processes with unrelated start strings never issue the same nonce, whatever they did since the
  clock they read at the start, if that was not zero.
  */
  lemma Separate(g: Generator, h: Generator, n: seq<byte>)
    requires g.Valid() && h.Valid() && g.started != 0 && h.started != 0 && Unrelated(g.start, h.start)
    requires n in g.nonces
    ensures n !in h.nonces
  {
    hide Leads, Issued, Increasing, Leading;
    if n in h.nonces {
      assert Leads(n, g.start) && Leads(n, h.start);
      if |Leading(g.start)| <= |Leading(h.start)| {
        LeadsBoth(n, g.start, h.start);
      } else {
        LeadsBoth(n, h.start, g.start);
      }
    }
  }

  /**
  If one of them read zero, they may: for every pair of start strings there are clock readings, random
  bytes and random keys with which both issue the same nonce.
  */
  method ZeroClockCollides(start: seq<byte>, start2: seq<byte>, clock2: nat, k: seq<byte>, random: seq<byte>)
    returns (g: Generator, h: Generator, n: seq<byte>)
    requires |Leading(start)| <= 8 && |Leading(start2)| <= 8 && |k| == 16 && |random| == 4
             && clock2 < 0x8000_0000_0000_0000
    ensures fresh(g) && fresh(h) && g.Valid() && h.Valid()
    ensures g.start == start && g.started == 0 && h.start == start2 && h.started == clock2
    ensures n in g.nonces && n in h.nonces
  {
    hide Leading, Tea, FirstByte;
    g := new Generator();
    h := new Generator();
    var _ := h.Init(start2, clock2, k);
    n := h.Next(clock2, random, k);
    var _ := g.Init(start, 0, k);
    var n2 := g.Next(clock2, n[..4], k);
    PlainByte(n[0]);
    assert n2 == n;
  }

  lemma PlainByte(r: byte)
    ensures Leading([]) == [] && FirstByte(r, []) == r
  {
    hide And, Pow2, Leading, Mask, Separation;
    BlankMask();
    AndOnes(r, 8);
    Pow2At8();
  }

  /** The counters of the nonces issued, in order. */
  ghost predicate Increasing(cs: seq<u64>, top: nat)
  {
    (forall i :: 0 <= i < |cs| ==> cs[i] <= top) && forall i, j :: 0 <= i < j < |cs| ==> cs[i] < cs[j]
  }

  ghost predicate Issued(ns: seq<seq<byte>>, cs: seq<u64>, key: seq<byte>)
    requires |key| == 16
  {
    |ns| == |cs| && forall i :: 0 <= i < |ns| ==> |ns[i]| == 12 && ns[i][4..] == Tea(cs[i], key)
  }

  /** No nonce is issued twice. */
  lemma NoRepeat(ns: seq<seq<byte>>, cs: seq<u64>, key: seq<byte>, top: nat, i: nat, j: nat)
    requires |key| == 16 && Issued(ns, cs, key) && Increasing(cs, top) && i < j < |ns|
    ensures ns[i] != ns[j]
  {
    hide Tea;
    if ns[i] == ns[j] {
      assert ns[i][4..] == Tea(cs[i], key) && ns[j][4..] == Tea(cs[j], key);
      TeaInjective(cs[i], cs[j], key);
    }
  }

  class Generator {
    var counter: u64
    var key: seq<byte>
    var mask: byte
    var data: byte
    ghost var nonces: seq<seq<byte>>
    ghost var counters: seq<u64>
    ghost var ns: seq<byte>
    ghost var start: seq<byte>
    ghost var started: nat

    /**
    Every nonce so far is the encryption of its own counter after the bits of `ns`, which is the start
    string unless the clock read zero at the start; the counter is within reach of the clock.
    */
    ghost predicate Valid()
      reads this
    {
      && |key| == 16 && |Leading(ns)| <= 8 && mask == Mask(ns) && data == Separation(ns)
      && Issued(nonces, counters, key) && Increasing(counters, counter) && (counter == 0 ==> nonces == [])
      && counter < 0x8000_0000_0000_0000 + |nonces|
      && AllLead(nonces, ns) && (started != 0 ==> ns == start && counter > 0)
    }

    /** A generator before `dns_nonce_init`: the counter is zero. */
    constructor ()
      ensures Valid() && nonces == [] && counter == 0 && ns == start == [] && started == 0
    {
      counter, key, mask, data := 0, Zeros(16), 255, 0;
      nonces, counters, ns, start, started := [], [], [], [], 0;
      new;
      BlankMask();
    }

    /** `dns_nonce_init`, lines 27-56: false if the start string has more than eight bits. */
    method Init(s: seq<byte>, clock: nat, k: seq<byte>) returns (ok: bool)
      requires |k| == 16 && clock < 0x8000_0000_0000_0000
      modifies this
      ensures ok <==> |Leading(s)| <= 8
      ensures ok ==> Valid() && nonces == [] && ns == start == s && started == clock && counter == clock && key == k
    {
      hide Leading, BitsValue, Pow2;
      counter := clock;
      var m: nat, d: nat, i: nat := 255, 0, 0;
      MaskStart(s);
      while i < 8 && CharAt(s, i) in {48, 49}
        invariant i <= 8 && Scanned(s, i, m, d) && counter == clock
      {
        ScanBit(s, i, m, d);
        m := m * 2 % 256;
        d := (d * 2 + CharAt(s, i) - 48) % 256;
        i := i + 1;
      }
      ScanEnd(s, i, m, d);
      if CharAt(s, i) in {48, 49} { return false; }
      while i < 8
        invariant |Leading(s)| <= i <= 8 && m < 256 && d < 256 && Filled(s, i, m, d) && counter == clock
      {
        FillBit(s, i, m, d);
        m := (m * 2 + 1) % 256;
        d := d * 2 % 256;
        i := i + 1;
      }
      FillEnd(s, m, d);
      mask, data, key := m, d, k;
      nonces, counters, ns, start, started := [], [], s, s, clock;
      ok := true;
    }

    /**
    `dns_nonce`, lines 89-105, at time `clock` with four random bytes, and a random key in case there is none
    yet.
    */
    method Next(clock: nat, random: seq<byte>, k: seq<byte>) returns (n: seq<byte>)
      requires Valid() && clock < 0x8000_0000_0000_0000 && |random| == 4 && |k| == 16
               && |nonces| + 1 < 0x8000_0000_0000_0000
      modifies this
      ensures Valid() && nonces == old(nonces) + [n] && |n| == 12 && n !in old(nonces)
      ensures start == old(start) && started == old(started)
      ensures ns == (if old(counter) == 0 then [] else old(ns)) && key == (if old(counter) == 0 then k else old(key))
      ensures counter == (if clock > old(counter) then clock else old(counter)) + 1
      ensures n == [FirstByte(random[0], ns)] + random[1..] + Tea(counter, key)
    {
      hide Tea, Leading, FirstByte, Issued, Increasing, AllLead, Separation, Mask, And;
      if counter == 0 {
        NoBits();
        ghost var s, c := start, started;
        var ok := Init([], clock, k);
        start, started := s, c;
      }
      ghost var top := counter;
      if clock > counter { counter := clock; }
      FirstByteLeads(random[0], ns);
      var b0: int, m: int := random[0], mask;
      var first := And(b0, m) + data;
      assert first == FirstByte(random[0], ns) by { FirstByteIs(random[0], ns); }
      counter := counter + 1;
      var tail := Encrypt(counter, key);
      n := [first] + random[1..] + tail;
      assert n[4..] == tail;
      NewCounter(nonces, counters, key, top, n, counter);
      NewLeads(nonces, n, ns, random[0]);
      nonces, counters := nonces + [n], counters + [counter];
    }
  }

  /** A nonce with a new counter is new. */
  lemma NewCounter(nonces: seq<seq<byte>>, counters: seq<u64>, key: seq<byte>, top: nat, n: seq<byte>, counter: u64)
    requires |key| == 16 && Issued(nonces, counters, key) && Increasing(counters, top) && top < counter
    requires |n| == 12 && n[4..] == Tea(counter, key)
    ensures n !in nonces && Issued(nonces + [n], counters + [counter], key) && Increasing(counters + [counter], counter)
  {
    hide Tea;
    if n in nonces {
      var i :| 0 <= i < |nonces| && nonces[i] == n;
      assert nonces[i][4..] == Tea(counters[i], key);
      TeaInjective(counters[i], counter, key);
    }
  }

  lemma NewLeads(nonces: seq<seq<byte>>, n: seq<byte>, ns: seq<byte>, r: byte)
    requires |Leading(ns)| <= 8 && AllLead(nonces, ns) && n != [] && n[0] == FirstByte(r, ns)
    ensures AllLead(nonces + [n], ns)
  {
    hide FirstByte, Leading;
    FirstByteLeads(r, ns);
  }

  lemma FirstByteIs(r: byte, ns: seq<byte>)
    requires |Leading(ns)| <= 8
    ensures FirstByte(r, ns) == And(r, Mask(ns)) + Separation(ns)
  {
  }

  lemma NoBits()
    ensures Leading([]) == []
  {
  }

  lemma BlankMask()
    ensures Leading([]) == [] && Mask([]) == 255 && Separation([]) == 0
  {
    Pow2At8();
    assert BitsValue([]) == 0;
  }

  /** After `i` bits of the start string. */
  ghost predicate Scanned(start: seq<byte>, i: nat, m: nat, d: nat)
  {
    && i <= |Leading(start)| && i <= 8 && d < 256
    && m == 256 - Pow2(i) && d == BitsValue(Leading(start)[..i])
  }

  lemma Pow2Small(i: nat)
    requires i <= 8
    ensures 1 <= Pow2(i) <= 256 && Pow2(i + 1) == 2 * Pow2(i)
  {
    Pow2Add(i, 8 - i);
    Pow2At8();
    assert Pow2(i) * Pow2(8 - i) >= Pow2(i) by { MulMono(1, Pow2(8 - i), Pow2(i)); }
  }

  lemma MaskStart(start: seq<byte>)
    ensures Scanned(start, 0, 255, 0)
  {
    assert Leading(start)[..0] == [];
  }

  lemma ScanBit(start: seq<byte>, i: nat, m: nat, d: nat)
    requires Scanned(start, i, m, d) && i < 8 && CharAt(start, i) in {48, 49}
    ensures Scanned(start, i + 1, m * 2 % 256, (d * 2 + CharAt(start, i) - 48) % 256)
  {
    hide Leading, Pow2;
    var b := Leading(start);
    assert i < |start|;
    assert i < |b|;
    assert b[i] == start[i];
    var t := b[..i + 1];
    assert t[..i] == b[..i] && t[i] == b[i];
    Pow2Small(i);
    Pow2Small(i + 1);
    assert BitsValue(t) < Pow2(i + 1);
  }

  lemma ScanEnd(start: seq<byte>, i: nat, m: nat, d: nat)
    requires Scanned(start, i, m, d) && (i == 8 || CharAt(start, i) !in {48, 49})
    ensures CharAt(start, i) in {48, 49} <==> |Leading(start)| > 8
    ensures CharAt(start, i) !in {48, 49} ==> m < 256 && |Leading(start)| == i && Filled(start, i, m, d)
  {
    hide Leading, Pow2, BitsValue;
    var b := Leading(start);
    Pow2Small(i);
    if i < |b| { assert b[i] == start[i]; }
    if CharAt(start, i) !in {48, 49} {
      assert b[..i] == b;
      assert Pow2(0) == 1 by { NoShift(); }
    }
  }

  lemma NoShift()
    ensures Pow2(0) == 1
  {
  }

  /** The bits are followed by zeros, the mask by ones. */
  ghost predicate Filled(start: seq<byte>, i: nat, m: nat, d: nat)
  {
    var l := |Leading(start)|;
    l <= i <= 8 && m == 255 - Pow2(i) + Pow2(i - l) && d == BitsValue(Leading(start)) * Pow2(i - l)
  }

  lemma FillBit(start: seq<byte>, i: nat, m: nat, d: nat)
    requires Filled(start, i, m, d) && i < 8
    ensures Filled(start, i + 1, (m * 2 + 1) % 256, d * 2 % 256)
  {
    hide Leading, Pow2, BitsValue;
    var l, b := |Leading(start)|, BitsValue(Leading(start));
    Pow2Small(i);
    Pow2Small(i - l);
    Pow2Small(i + 1);
    Pow2Add(l, i - l);
    assert i + 1 - l == i - l + 1;
    FillSums(Pow2(i), Pow2(i - l), b, Pow2(l), m, d, Pow2(i + 1), Pow2(i + 1 - l));
  }

  lemma FillSums(p: nat, q: nat, b: nat, s: nat, m: nat, d: nat, p2: nat, q2: nat)
    requires p == s * q && 2 * p <= 256 && q >= 1 && s >= 1 && b < s && m == 255 - p + q && d == b * q && p2 == 2 * p
             && q2 == 2 * q
    ensures (m * 2 + 1) % 256 == 255 - p2 + q2 && d * 2 % 256 == b * q2
  {
    MulMono(1, s, q);
    MulMono(b + 1, s, q);
    assert (b + 1) * q == d + q;
    assert b * (2 * q) == 2 * (b * q);
    assert d * 2 < 256;
  }

  lemma FillEnd(start: seq<byte>, m: nat, d: nat)
    requires Filled(start, 8, m, d)
    ensures |Leading(start)| <= 8 && m == Mask(start) && d == Separation(start) && m < 256
  {
    hide Leading, BitsValue;
    Pow2At8();
    Pow2Small(8 - |Leading(start)|);
  }
}
