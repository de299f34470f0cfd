/**
The shape of a DNS message (section 4.1 of RFC 1035): a header of twelve bytes, one question and
resource records, each a name, type, class, time to live, data length and data.
*/
module Message {
  import opened Bits
  import opened Names
  import opened Packet

  const ANSWER := 6
  const AUTHORITY := 8
  const ADDITIONAL := 10

  function Be16(s: seq<byte>, i: nat): nat
    requires i + 2 <= |s|
  {
    var hi: int, lo: int := s[i], s[i + 1];
    hi * 256 + lo
  }

  function ToBe16(x: nat): (s: seq<byte>)
    requires x < 65536
    ensures |s| == 2
  {
    [x / 256, x % 256]
  }

  function ToBe32(x: u32): (s: seq<byte>)
    ensures |s| == 4
  {
    [x / 0x100_0000, x / 0x1_0000 % 256, x / 256 % 256, x % 256]
  }

  /** A record: where it starts, the ten bytes after its name less the data length, where its data starts and ends. */
  datatype Raw = Raw(pos: nat, fixed: seq<byte>, dstart: nat, dend: nat)

  /**
  A parser of `n` records from `pos` on, which skips each by its data length; the end position 0 stands for
  failure.
  */
  function Records(msg: seq<byte>, pos: nat, n: nat): (nat, seq<Raw>)
    decreases n
  {
    if n == 0 then (pos, [])
    else
      var h := SkipName(msg, pos);
      if h == 0 || h + 10 > |msg| then (0, [])
      else
        var e := h + 10 + Be16(msg, h + 8);
        if e > |msg| then (0, [])
        else
          var rest := Records(msg, e, n - 1);
          (rest.0, [Raw(pos, msg[h..h + 8], h + 10, e)] + rest.1)
  }

  /**
  A finished record of the builder, in the section whose count is at byte `section` of the header; its owner
  is the name written as number `name`.
  */
  datatype Rec = Rec(raw: Raw, section: nat, name: nat)

  ghost predicate RecordAt(msg: seq<byte>, r: Raw)
  {
    var h := SkipName(msg, r.pos);
    && 12 <= r.pos < h && h + 10 == r.dstart <= r.dend <= |msg|
    && r.fixed == msg[h..h + 8] && Be16(msg, h + 8) == r.dend - r.dstart
  }

  /** The records follow each other from `pos` to `end`. */
  ghost predicate Chain(msg: seq<byte>, recs: seq<Rec>, pos: nat, end: nat)
  {
    if recs == [] then pos == end
    else RecordAt(msg, recs[0].raw) && recs[0].raw.pos == pos && Chain(msg, recs[1..], recs[0].raw.dend, end)
  }

  function Raws(recs: seq<Rec>): (s: seq<Raw>)
    ensures |s| == |recs|
  {
    seq(|recs|, i requires 0 <= i < |recs| => recs[i].raw)
  }

  /** How many of the records are in a section. */
  function Count(recs: seq<Rec>, section: nat): (n: nat)
    ensures n <= |recs|
  {
    if recs == [] then 0 else Count(recs[..|recs| - 1], section) + if recs[|recs| - 1].section == section then 1 else 0
  }

  ghost predicate Ordered(recs: seq<Rec>)
  {
    && (forall i :: 0 <= i < |recs| ==> recs[i].section in {ANSWER, AUTHORITY, ADDITIONAL})
    && forall i, j :: 0 <= i < j < |recs| ==> recs[i].section <= recs[j].section
  }

  // ----- chains

  /** A parser that trusts nothing but the bytes finds exactly the records of the chain. */
  lemma {:induction false} ChainParses(msg: seq<byte>, recs: seq<Rec>, pos: nat, end: nat)
    requires Chain(msg, recs, pos, end)
    ensures Records(msg, pos, |recs|) == (end, Raws(recs))
  {
    if recs != [] {
      var r := recs[0].raw;
      ChainParses(msg, recs[1..], r.dend, end);
      assert Raws(recs) == [r] + Raws(recs[1..]);
    }
  }

  lemma {:induction false} ChainAppend(msg: seq<byte>, recs: seq<Rec>, pos: nat, end: nat, r: Rec)
    requires Chain(msg, recs, pos, end) && RecordAt(msg, r.raw) && r.raw.pos == end
    ensures Chain(msg, recs + [r], pos, r.raw.dend)
  {
    if recs == [] {
      assert recs + [r] == [r] && [r][1..] == [];
    } else {
      ChainAppend(msg, recs[1..], recs[0].raw.dend, end, r);
      assert (recs + [r])[1..] == recs[1..] + [r];
    }
  }

  lemma {:induction false} ChainForward(msg: seq<byte>, recs: seq<Rec>, pos: nat, end: nat)
    requires Chain(msg, recs, pos, end)
    ensures pos + 11 * |recs| <= end
  {
    if recs != [] { ChainForward(msg, recs[1..], recs[0].raw.dend, end); }
  }

  /** The messages agree from byte 12 to byte `end`. */
  ghost predicate Agree(a: seq<byte>, b: seq<byte>, end: nat)
  {
    end <= |a| && end <= |b| && forall i :: 12 <= i < end ==> a[i] == b[i]
  }

  lemma {:induction false} SkipSame(a: seq<byte>, b: seq<byte>, pos: nat, end: nat)
    requires Agree(a, b, end) && 12 <= pos && 0 < SkipName(a, pos) <= end
    ensures SkipName(b, pos) == SkipName(a, pos)
    decreases |a| - pos
  {
    SkipForward(a, pos);
    assert a[pos] == b[pos];
    if 0 < a[pos] < 64 {
      SkipSame(a, b, pos + 1 + a[pos], end);
    }
  }

  lemma {:induction false} SkipForward(a: seq<byte>, pos: nat)
    requires SkipName(a, pos) > 0
    ensures pos < |a| && pos < SkipName(a, pos)
    decreases |a| - pos
  {
    if 0 < a[pos] < 64 { SkipForward(a, pos + 1 + a[pos]); }
  }

  lemma {:induction false} ChainSame(a: seq<byte>, b: seq<byte>, recs: seq<Rec>, pos: nat, end: nat)
    requires Chain(a, recs, pos, end) && Agree(a, b, end)
    ensures Chain(b, recs, pos, end)
  {
    if recs != [] {
      var r := recs[0].raw;
      ChainForward(a, recs[1..], r.dend, end);
      SkipSame(a, b, r.pos, end);
      var h := SkipName(a, r.pos);
      assert a[h..h + 8] == b[h..h + 8];
      ChainSame(a, b, recs[1..], r.dend, end);
    }
  }

  lemma CountAppend(recs: seq<Rec>, r: Rec, section: nat)
    ensures Count(recs + [r], section) == Count(recs, section) + if r.section == section then 1 else 0
  {
    assert (recs + [r])[..|recs|] == recs;
  }

  /** The counts of the header are those of the sections. */
  ghost predicate Counts(msg: seq<byte>, recs: seq<Rec>)
  {
    |msg| >= 12 && Be16(msg, 6) == Count(recs, ANSWER) && Be16(msg, 8) == Count(recs, AUTHORITY)
      && Be16(msg, 10) == Count(recs, ADDITIONAL)
  }

  /** The three sections partition the records. */
  lemma {:induction false} CountsAll(recs: seq<Rec>)
    requires Ordered(recs)
    ensures Count(recs, ANSWER) + Count(recs, AUTHORITY) + Count(recs, ADDITIONAL) == |recs|
  {
    if recs != [] {
      var n := |recs| - 1;
      assert recs[n].section in {ANSWER, AUTHORITY, ADDITIONAL};
      CountsAll(recs[..n]);
    }
  }
}
