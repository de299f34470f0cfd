/**
Names inside a message under construction: the bytes that belong to names are kept apart from
the header and the fields that are filled in later, so that what a name spells survives every
later step of the builder.
*/
module Compress {
  import opened Bits
  import opened Bytes
  import opened Names
  import opened Packet

  /** As `Spells`, reading only bytes at the positions `on`. */
  ghost predicate SpellsOn(buf: seq<byte>, on: set<nat>, pos: nat, name: seq<byte>, jumps: int)
    decreases |name|, jumps
  {
    && pos < |buf| && pos in on
    && var ch := buf[pos];
       if ch >= 192 then jumps > 0 && pos + 1 < |buf| && pos + 1 in on
                         && SpellsOn(buf, on, Target(buf, pos), name, jumps - 1)
       else if ch == 0 then name == [0] && jumps == 0
       else
         && ch < 64 && pos + 1 + ch <= |buf| && 1 + ch <= |name| && name[..1 + ch] == buf[pos..pos + 1 + ch]
         && (forall i :: pos <= i < pos + 1 + ch ==> i in on)
         && SpellsOn(buf, on, pos + 1 + ch, name[1 + ch..], jumps)
  }

  lemma {:induction false} SpellsOnSpells(buf: seq<byte>, on: set<nat>, pos: nat, name: seq<byte>, jumps: int)
    requires SpellsOn(buf, on, pos, name, jumps)
    ensures Spells(buf, pos, name, jumps)
    decreases |name|, jumps
  {
    var ch := buf[pos];
    if ch >= 192 {
      SpellsOnSpells(buf, on, Target(buf, pos), name, jumps - 1);
    } else if ch != 0 {
      SpellsOnSpells(buf, on, pos + 1 + ch, name[1 + ch..], jumps);
    }
  }

  /** The message `b` keeps the name bytes of `a` where they are. */
  ghost predicate Keeps(a: seq<byte>, b: seq<byte>, on: set<nat>)
  {
    |a| <= |b| && forall i :: i in on && 0 <= i < |a| ==> b[i] == a[i]
  }

  lemma SkipStep(buf: seq<byte>, pos: nat)
    requires pos < |buf|
    ensures SkipName(buf, pos) == if buf[pos] >= 192 then pos + 2 else if buf[pos] >= 64 then 0
                                                                       else if buf[pos] == 0 then pos + 1
                                                                            else SkipName(buf, pos + 1 + buf[pos])
  {
  }

  lemma {:induction false} SpellsOnKeeps(a: seq<byte>, b: seq<byte>, on: set<nat>, on': set<nat>, pos: nat,
                                         name: seq<byte>, jumps: int)
    requires SpellsOn(a, on, pos, name, jumps) && Keeps(a, b, on) && on <= on'
    ensures SpellsOn(b, on', pos, name, jumps) && SkipName(b, pos) == SkipName(a, pos)
    decreases |name|, jumps
  {
    hide SkipName;
    SkipStep(a, pos);
    SkipStep(b, pos);
    var ch := a[pos];
    assert b[pos] == ch;
    if ch >= 192 {
      assert b[pos + 1] == a[pos + 1];
      SpellsOnKeeps(a, b, on, on', Target(a, pos), name, jumps - 1);
    } else if ch != 0 {
      SpellsOnKeeps(a, b, on, on', pos + 1 + ch, name[1 + ch..], jumps);
      assert a[pos..pos + 1 + ch] == b[pos..pos + 1 + ch];
    }
  }

  /** The number of labels of a name. */
  function Labels(d: seq<byte>): nat
    requires IsName(d)
    decreases |d|
  {
    if d[0] == 0 then 0 else 1 + Labels(Parent(d))
  }

  lemma {:induction false} LabelsBound(d: seq<byte>)
    requires IsName(d)
    ensures 2 * Labels(d) < |d|
    decreases |d|
  {
    if d[0] != 0 { LabelsBound(Parent(d)); }
  }

  /** Labels copied from `d` up to byte `i`, then something that spells `tail`, spell the labels and then `tail`. */
  lemma {:induction false} LabelsThen(buf: seq<byte>, on: set<nat>, start: nat, d: seq<byte>, b: nat, i: nat,
                                      tail: seq<byte>, jumps: int)
    requires IsName(d) && Boundary(d, b) && Boundary(d, i) && b <= i <= |d| && start + i <= |buf|
    requires buf[start..start + i] == d[..i] && forall x :: start <= x < start + i ==> x in on
    requires SpellsOn(buf, on, start + i, tail, jumps)
    ensures SpellsOn(buf, on, start + b, d[b..i] + tail, jumps)
    ensures SkipName(buf, start + b) == SkipName(buf, start + i)
    decreases i - b
  {
    hide Boundary, SpellsOn;
    if b == i {
      assert d[b..i] + tail == tail;
    } else {
      BoundaryName(d, b);
      NotLast(d, b, i);
      BoundaryNext(d, b);
      NextWithin(d, b, i);
      var n := 1 + d[b];
      assert d[b..][0] == d[b] < 64;
      hide IsName;
      LabelsThen(buf, on, start, d, b + n, i, tail, jumps);
      LabelByte(buf, start, d, b, i);
      LabelBytes(buf, start, d, b, n, i, tail);
      SpellsLabel(buf, on, start + b, d[b..i] + tail, jumps, n);
    }
  }

  lemma SpellsLabel(buf: seq<byte>, on: set<nat>, pos: nat, name: seq<byte>, jumps: int, n: nat)
    requires 2 <= n <= 64 && pos + n <= |buf| && buf[pos] == n - 1 && n <= |name| && name[..n] == buf[pos..pos + n]
    requires (forall i :: pos <= i < pos + n ==> i in on) && SpellsOn(buf, on, pos + n, name[n..], jumps)
    ensures SpellsOn(buf, on, pos, name, jumps) && SkipName(buf, pos) == SkipName(buf, pos + n)
  {
  }

  lemma LabelBytes(buf: seq<byte>, start: nat, d: seq<byte>, b: nat, n: nat, i: nat, tail: seq<byte>)
    requires b + n <= i <= |d| && start + i <= |buf| && buf[start..start + i] == d[..i]
    ensures var name := d[b..i] + tail;
            n <= |name| && name[n..] == d[b + n..i] + tail && name[..n] == buf[start + b..start + b + n]
  {
    var name := d[b..i] + tail;
    assert name[..n] == d[b..b + n];
    SliceSlice(buf, start, start + i, b, b + n);
    SliceSlice(d, 0, i, b, b + n);
    assert d[0..i] == d[..i];
  }

  lemma LabelByte(buf: seq<byte>, start: nat, d: seq<byte>, b: nat, i: nat)
    requires b < i <= |d| && start + i <= |buf| && buf[start..start + i] == d[..i]
    ensures buf[start + b] == d[b]
  {
    assert buf[start..start + i][b] == d[..i][b];
  }

  lemma NotLast(d: seq<byte>, b: nat, i: nat)
    requires IsName(d) && Boundary(d, b) && Boundary(d, i) && b < i && b < |d|
    ensures d[b] != 0
  {
    if d[b] == 0 { LastBoundary(d, b); }
  }

  lemma NextWithin(d: seq<byte>, b: nat, i: nat)
    requires IsName(d) && Boundary(d, b) && Boundary(d, i) && b < i && b < |d| && d[b] != 0
    ensures b + 1 + d[b] <= i
  {
    NoBoundaryBetween(d, b);
  }

  /** The labels of the part of a name from `b` on outnumber those from a later boundary on. */
  lemma LabelsFrom(d: seq<byte>, b: nat, i: nat)
    requires IsName(d) && Boundary(d, b) && Boundary(d, i) && b < i
    ensures b < |d| && i < |d| && IsName(d[b..]) && IsName(d[i..]) && Labels(d[i..]) < Labels(d[b..])
  {
    hide Labels, IsName, Boundary;
    BoundaryName(d, i);
    BoundarySub(d, b, i);
    LabelsFewer(d[b..], i - b);
    assert d[b..][i - b..] == d[i..];
  }

  lemma LabelsFewer(d: seq<byte>, i: nat)
    requires IsName(d) && Boundary(d, i) && i > 0
    ensures i < |d| && IsName(d[i..]) && Labels(d[i..]) < Labels(d)
  {
    var l, p := 1 + d[0], Parent(d);
    LabelsAfter(p, i - l);
    assert p[i - l..] == d[i..];
  }

  lemma LabelsAfter(d: seq<byte>, i: nat)
    requires IsName(d) && Boundary(d, i)
    ensures i < |d| && IsName(d[i..]) && Labels(d[i..]) <= Labels(d)
    decreases |d|
  {
    BoundaryName(d, i);
    if i == 0 {
      assert d[0..] == d;
    } else {
      var l, p := 1 + d[0], Parent(d);
      LabelsAfter(p, i - l);
      assert p[i - l..] == d[i..];
    }
  }

  /** A spelling of `d` up to case, with few enough pointers to be read back. */
  ghost predicate Written(buf: seq<byte>, on: set<nat>, pos: nat, d: seq<byte>, spelled: seq<byte>, jumps: nat)
  {
    IsName(d) && SpellsOn(buf, on, pos, spelled, jumps) && Equal(spelled, d) && jumps <= Labels(d) + 1
  }

  /** What the builder wrote, `dns_packet_getname` reads: the same name up to case, ending where `SkipName` says. */
  method ReadBack(buf: seq<byte>, ghost on: set<nat>, pos: nat, ghost d: seq<byte>, ghost spelled: seq<byte>,
                  ghost jumps: nat)
    returns (r: nat, name: seq<byte>)
    requires Written(buf, on, pos, d, spelled, jumps)
    ensures |d| <= 255 ==> r == SkipName(buf, pos) > 0 && Equal(name, d)
    ensures |d| > 255 ==> r == 0
  {
    hide Spells;
    SpellsOnSpells(buf, on, pos, spelled, jumps);
    LabelsBound(d);
    SpellsName(buf, pos, spelled, jumps);
    assert |spelled| == |d| by { assert |Lower(spelled)| == |Lower(d)|; }
    ghost var j;
    r, name, j := GetName(buf, pos);
    if r != 0 { SpellsUnique(buf, pos, spelled, jumps, name, j); }
  }
}
