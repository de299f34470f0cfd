/**
The compression table of `dq/response.c` (lines 11-14) and what `response_addname` (lines 25-52)
does with it, as steps on the message: labels are copied, each remembered with its position, until
the rest of the name is known, when a pointer ends the name.
*/
module NameTable {
  import opened Bits
  import opened Bytes
  import opened Names
  import opened Packet
  import opened Compress

  const NAMES := 100

  /** A name the table holds and the position, below 16384, where the message spells it. */
  datatype Known = Known(name: seq<byte>, ptr: nat)

  /** How the message spells it: up to case, with this many pointers. */
  datatype Spelling = Spelling(spelled: seq<byte>, jumps: nat)

  /** The table entry is spelled with at most one pointer per label. */
  ghost predicate KnownOk(msg: seq<byte>, on: set<nat>, k: Known, s: Spelling)
  {
    && k.ptr < 16384 && IsName(k.name) && k.name[0] != 0
    && SpellsOn(msg, on, k.ptr, s.spelled, s.jumps) && Equal(s.spelled, k.name) && s.jumps <= Labels(k.name)
  }

  ghost predicate TableOk(msg: seq<byte>, on: set<nat>, names: seq<Known>, sp: seq<Spelling>)
  {
    |sp| == |names| && forall i :: 0 <= i < |names| ==> KnownOk(msg, on, names[i], sp[i])
  }

  lemma TableKeeps(a: seq<byte>, b: seq<byte>, on: set<nat>, on': set<nat>, names: seq<Known>, sp: seq<Spelling>)
    requires TableOk(a, on, names, sp) && Keeps(a, b, on) && on <= on'
    ensures TableOk(b, on', names, sp)
  {
    forall i | 0 <= i < |names| ensures KnownOk(b, on', names[i], sp[i]) {
      assert KnownOk(a, on, names[i], sp[i]);
      SpellsOnKeeps(a, b, on, on', names[i].ptr, sp[i].spelled, sp[i].jumps);
    }
  }

  /** The entries added while a name is written: its tails from the boundaries `bs`, all before byte `i`. */
  ghost predicate Fresh(names: seq<Known>, bs: seq<nat>, start: nat, d: seq<byte>, i: nat)
    requires IsName(d)
  {
    |bs| == |names| && forall t :: 0 <= t < |bs| ==> FreshAt(names[t], bs[t], start, d, i)
  }

  ghost predicate FreshAt(k: Known, b: nat, start: nat, d: seq<byte>, i: nat)
    requires IsName(d)
  {
    b < i && b < |d| && Boundary(d, b) && k == Known(d[b..], start + b) && k.ptr < 16384
  }

  /** A message in which the name `d`, started at `start`, is written up to byte `i`. */
  ghost predicate Partial(msg: seq<byte>, on: set<nat>, start: nat, d: seq<byte>, i: nat)
  {
    && IsName(d) && i < |d| && Boundary(d, i) && |msg| == start + i && msg[start..] == d[..i]
    && forall x :: start <= x < start + i ==> x in on
  }

  /** What the end of the name spells. */
  ghost predicate Ended(msg: seq<byte>, on: set<nat>, start: nat, d: seq<byte>, i: nat, tail: seq<byte>, jumps: nat)
    requires IsName(d)
  {
    && i < |d| && Boundary(d, i) && start + i < |msg| && msg[start..start + i] == d[..i]
    && (forall x :: start <= x < start + i ==> x in on)
    && IsName(d[i..]) && SpellsOn(msg, on, start + i, tail, jumps) && Equal(tail, d[i..]) && jumps <= Labels(d[i..]) + 1
  }

  lemma EqualTails(d: seq<byte>, b: nat, i: nat, tail: seq<byte>)
    requires b <= i <= |d| && Equal(tail, d[i..])
    ensures Equal(d[b..i] + tail, d[b..])
  {
    LowerConcat(d[b..i], tail);
    LowerConcat(d[b..i], d[i..]);
    assert d[b..i] + d[i..] == d[b..];
  }

  /** Once the name is ended, every tail of it that was remembered is spelled. */
  lemma FreshKnown(msg: seq<byte>, on: set<nat>, k: Known, b: nat, start: nat, d: seq<byte>, i: nat, tail: seq<byte>,
                   jumps: nat)
    requires IsName(d) && Ended(msg, on, start, d, i, tail, jumps) && FreshAt(k, b, start, d, i)
    ensures KnownOk(msg, on, k, Spelling(d[b..i] + tail, jumps))
  {
    hide SpellsOn, Labels, Equal;
    LabelsThen(msg, on, start, d, b, i, tail, jumps);
    EqualTails(d, b, i, tail);
    LabelsFrom(d, b, i);
    BoundaryName(d, b);
    NotLast(d, b, i);
    assert d[b..][0] == d[b];
  }

  /** The whole name reads back as written. */
  lemma EndedWritten(msg: seq<byte>, on: set<nat>, start: nat, d: seq<byte>, i: nat, tail: seq<byte>, jumps: nat)
    requires IsName(d) && Ended(msg, on, start, d, i, tail, jumps)
    ensures Written(msg, on, start, d, d[..i] + tail, jumps) && SkipName(msg, start) == SkipName(msg, start + i)
  {
    hide SpellsOn, Labels, Equal;
    assert Boundary(d, 0);
    LabelsThen(msg, on, start, d, 0, i, tail, jumps);
    EqualTails(d, 0, i, tail);
    assert d[0..i] == d[..i] && d[0..] == d;
    LabelsAfter(d, i);
  }

  ghost function FreshSpellings(bs: seq<nat>, d: seq<byte>, i: nat, tail: seq<byte>, jumps: nat): (sp: seq<Spelling>)
    requires i <= |d| && forall t :: 0 <= t < |bs| ==> bs[t] <= i
    ensures |sp| == |bs| && forall t :: 0 <= t < |bs| ==> sp[t] == Spelling(d[bs[t]..i] + tail, jumps)
  {
    seq(|bs|, t requires 0 <= t < |bs| => Spelling(d[bs[t]..i] + tail, jumps))
  }

  /** The table after a name is ended: the old entries and the tails of the new name. */
  lemma EndedTable(a: seq<byte>, on: set<nat>, msg: seq<byte>, on': set<nat>, names: seq<Known>, n0: nat,
                   sp: seq<Spelling>,
                   bs: seq<nat>, start: nat, d: seq<byte>, i: nat, tail: seq<byte>, jumps: nat)
    requires IsName(d) && n0 <= |names| && TableOk(a, on, names[..n0], sp) && Keeps(a, msg, on) && on <= on'
    requires Fresh(names[n0..], bs, start, d, i) && Ended(msg, on', start, d, i, tail, jumps)
    ensures (forall t :: 0 <= t < |bs| ==> bs[t] <= i)
            && TableOk(msg, on', names, sp + FreshSpellings(bs, d, i, tail, jumps))
  {
    hide KnownOk, Ended;
    TableKeeps(a, msg, on, on', names[..n0], sp);
    forall t | 0 <= t < |bs| ensures bs[t] <= i { assert FreshAt(names[n0..][t], bs[t], start, d, i); }
    assert i <= |d| by { EndedBound(msg, on', start, d, i, tail, jumps); }
    var sp' := sp + FreshSpellings(bs, d, i, tail, jumps);
    forall t | 0 <= t < |names| ensures KnownOk(msg, on', names[t], sp'[t]) {
      if t < n0 {
        assert KnownOk(msg, on', names[..n0][t], sp[t]);
      } else {
        assert FreshAt(names[n0..][t - n0], bs[t - n0], start, d, i);
        FreshKnown(msg, on', names[t], bs[t - n0], start, d, i, tail, jumps);
      }
    }
  }

  lemma EndedBound(msg: seq<byte>, on: set<nat>, start: nat, d: seq<byte>, i: nat, tail: seq<byte>, jumps: nat)
    requires IsName(d) && Ended(msg, on, start, d, i, tail, jumps)
    ensures i < |d|
  {
  }

  /** The positions from `a` up to `b`. */
  ghost function Span(a: nat, b: nat): (s: set<nat>)
    ensures forall x :: x in s <==> a <= x < b
    decreases b - a
  {
    if a >= b then {} else {a} + Span(a + 1, b)
  }

  /** Lines 36-37: a pointer to a known name ends the name. */
  function PointerTo(ptr: nat): seq<byte>
    requires ptr < 16384
  {
    [192 + ptr / 256, ptr % 256]
  }

  lemma EndByPointer(a: seq<byte>, on: set<nat>, start: nat, d: seq<byte>, i: nat, k: Known, s: Spelling, on': set<nat>)
    requires Partial(a, on', start, d, i) && KnownOk(a, on, k, s) && Equal(d[i..], k.name) && on <= on'
    requires |a| in on' && |a| + 1 in on'
    ensures Ended(a + PointerTo(k.ptr), on', start, d, i, s.spelled, s.jumps + 1)
    ensures SkipName(a + PointerTo(k.ptr), start + i) == |a| + 2
  {
    hide SpellsOn, Labels, Equal, PointerTo;
    var msg := a + PointerTo(k.ptr);
    assert Keeps(a, msg, on);
    SpellsOnKeeps(a, msg, on, on', k.ptr, s.spelled, s.jumps);
    SpellsPointer(a, on', k.ptr, s.spelled, s.jumps);
    BoundaryName(d, i);
    EqualLabels(d[i..], k.name);
    EqualTwice(s.spelled, k.name, d[i..]);
    assert msg[start..start + i] == a[start..];
  }

  lemma EqualTwice(a: seq<byte>, b: seq<byte>, c: seq<byte>)
    requires Equal(a, b) && Equal(c, b)
    ensures Equal(a, c)
  {
  }

  lemma SpellsPointer(a: seq<byte>, on: set<nat>, ptr: nat, name: seq<byte>, jumps: nat)
    requires ptr < 16384 && |a| in on && |a| + 1 in on && SpellsOn(a + PointerTo(ptr), on, ptr, name, jumps)
    ensures |PointerTo(ptr)| == 2 && SpellsOn(a + PointerTo(ptr), on, |a|, name, jumps + 1)
    ensures SkipName(a + PointerTo(ptr), |a|) == |a| + 2
  {
    var msg := a + PointerTo(ptr);
    assert msg[|a|] == 192 + ptr / 256 && msg[|a| + 1] == ptr % 256;
    assert Target(msg, |a|) == ptr;
  }

  lemma {:induction false} EqualLabels(a: seq<byte>, b: seq<byte>)
    requires IsName(a) && IsName(b) && Equal(a, b)
    ensures Labels(a) == Labels(b)
    decreases |a|
  {
    EqualParent(a, b);
    if a[0] != 0 { EqualLabels(Parent(a), Parent(b)); }
  }

  /** Line 51: the zero byte ends the name. */
  lemma EndByZero(a: seq<byte>, start: nat, d: seq<byte>, i: nat, on': set<nat>)
    requires Partial(a, on', start, d, i) && d[i] == 0 && |a| in on'
    ensures Ended(a + [0], on', start, d, i, [0], 0) && SkipName(a + [0], start + i) == |a| + 1
  {
    var msg := a + [0];
    BoundaryName(d, i);
    assert d[i..][0] == 0 && d[i..] == [0];
    assert msg[start..start + i] == a[start..];
  }

  /** Lines 45-49: a label is copied. */
  lemma CopyLabel(a: seq<byte>, on: set<nat>, start: nat, d: seq<byte>, i: nat, on': set<nat>)
    requires Partial(a, on, start, d, i) && d[i] != 0
    requires on' == on + Span(|a|, |a| + 1 + d[i])
    ensures i + 1 + d[i] < |d| && Partial(a + d[i..i + 1 + d[i]], on', start, d, i + 1 + d[i])
  {
    hide IsName, Boundary;
    BoundaryNext(d, i);
    var n := i + 1 + d[i];
    BoundaryName(d, n);
    assert (a + d[i..n])[start..] == a[start..] + d[i..n];
    assert d[..i] + d[i..n] == d[..n];
  }
}
