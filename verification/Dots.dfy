/**
Names as text (`dq/dns_dtda.c`, `dq/dns_domain.c`): labels joined by dots, letters in lower case,
unusual bytes as a backslash and three octal digits.
*/
module Dots {
  import opened Bits
  import opened Names
  import opened Wrappers

  predicate Plain(b: byte) { 97 <= b <= 122 || 48 <= b <= 57 || b == 45 || b == 95 }

  /** Lines 17-30 of `dns_domain_todot_cat`: one byte of a label. */
  function Escape(c: byte): (s: seq<byte>)
  {
    var b := LowerByte(c);
    if Plain(b) then [b] else [92, 48 + b / 64, 48 + b / 8 % 8, 48 + b % 8]
  }

  function LabelText(l: seq<byte>): seq<byte>
  {
    if l == [] then [] else Escape(l[0]) + LabelText(l[1..])
  }

  /** The labels of a name from the first on, joined by dots. */
  function Labels(d: seq<byte>): seq<byte>
    requires IsName(d) && d[0] != 0
    decreases |d|
  {
    var p := Parent(d);
    LabelText(d[1..1 + d[0]]) + if p[0] == 0 then [] else [46] + Labels(p)
  }

  /** The text of a name. */
  function ToDot(d: seq<byte>): seq<byte>
    requires IsName(d)
  {
    if d[0] == 0 then [46] else Labels(d)
  }

  /** `dns_domain_todot_cat`, lines 4-35. */
  method ToDotCat(d: seq<byte>) returns (out: seq<byte>)
    requires IsName(d)
    ensures out == ToDot(d)
  {
    hide IsName, Labels, LabelText;
    out := [];
    assert d[0..] == d;
    Head(d, 0);
    if d[0] == 0 { return [46]; }
    var i: nat := 0;
    assert [] + Labels(d) == Labels(d);
    while true
      invariant i < |d| && IsName(d[i..]) && d[i] != 0 && out + Labels(d[i..]) == ToDot(d)
      decreases |d| - i
    {
      Head(d, i);
      var n: nat := d[i] as int;
      ghost var was := out;
      out := LabelCat(out, d[i + 1..i + 1 + n]);
      LabelsStep(d, i, was);
      i := i + 1 + n;
      Head(d, i);
      if d[i] == 0 { return; }
      out := out + [46];
    }
  }

  /** Lines 16-31. */
  method LabelCat(start: seq<byte>, l: seq<byte>) returns (out: seq<byte>)
    ensures out == start + LabelText(l)
  {
    hide Escape, LabelText;
    out := start;
    var k := 0;
    assert l[0..] == l;
    while k < |l|
      invariant 0 <= k <= |l| && out + LabelText(l[k..]) == start + LabelText(l)
    {
      ghost var was := out;
      out := EscapeCat(out, l[k]);
      LabelTextStep(l, k, was);
      k := k + 1;
    }
    assert l[|l|..] == [];
    NoText();
    assert out + [] == out;
  }

  lemma NoText()
    ensures LabelText([]) == []
  {
  }

  lemma LabelTextStep(l: seq<byte>, k: nat, out: seq<byte>)
    requires k < |l|
    ensures out + LabelText(l[k..]) == out + Escape(l[k]) + LabelText(l[k + 1..])
  {
    hide Escape;
    var m := l[k..];
    assert m[0] == l[k] && m[1..] == l[k + 1..];
    assert out + (Escape(m[0]) + LabelText(m[1..])) == out + Escape(m[0]) + LabelText(m[1..]);
  }

  lemma TopDigit(b: byte)
    ensures b / 8 / 8 % 8 == b / 64
  {
  }

  /** Lines 17-30. */
  method EscapeCat(start: seq<byte>, c: byte) returns (out: seq<byte>)
    ensures out == start + Escape(c)
  {
    var ch2: byte := if 65 <= c <= 90 then c + 32 else c;
    if Plain(ch2) { return start + [ch2]; }
    var ch3: int := ch2;
    TopDigit(ch2);
    var b3: byte := 48 + ch3 % 8;
    ch3 := ch3 / 8;
    var b2: byte := 48 + ch3 % 8;
    ch3 := ch3 / 8;
    var b1: byte := 48 + ch3 % 8;
    return start + [92, b1, b2, b3];
  }

  lemma Head(d: seq<byte>, i: nat)
    requires i <= |d| && IsName(d[i..])
    ensures i < |d| && d[i] < 64 && (d[i] != 0 ==> i + 1 + d[i] < |d| && IsName(d[i + 1 + d[i]..]))
  {
    var e := d[i..];
    assert e[0] == d[i];
    if d[i] != 0 { assert e[1 + e[0]..] == d[i + 1 + d[i]..]; }
  }

  lemma LabelsStep(d: seq<byte>, i: nat, out: seq<byte>)
    requires i < |d| && IsName(d[i..]) && d[i] != 0 && i + 1 + d[i] < |d| && IsName(d[i + 1 + d[i]..])
    ensures var j := i + 1 + d[i];
            var t := out + LabelText(d[i + 1..j]);
            out + Labels(d[i..]) == if d[j] == 0 then t else t + [46] + Labels(d[j..])
  {
    hide LabelText;
    var e, j := d[i..], i + 1 + d[i];
    assert e[0] == d[i];
    assert e[1..1 + e[0]] == d[i + 1..j];
    assert Parent(e) == d[j..];
    assert Parent(e)[0] == d[j];
    var l := LabelText(d[i + 1..j]);
    LabelsIs(e);
    if d[j] == 0 {
      assert l + [] == l;
    } else {
      var t := Labels(d[j..]);
      assert out + (l + ([46] + t)) == out + l + [46] + t;
    }
  }

  lemma LabelsIs(d: seq<byte>)
    requires IsName(d) && d[0] != 0
    ensures Labels(d) == LabelText(d[1..1 + d[0]]) + if Parent(d)[0] == 0 then [] else [46] + Labels(Parent(d))
  {
  }

  // ----- from text

  predicate Octal(s: seq<byte>) { |s| > 0 && 48 <= s[0] <= 55 }

  /** Lines 103-118: the byte after a backslash, and what follows; up to three octal digits, modulo 256. */
  function Unescape(s: seq<byte>): (r: (byte, seq<byte>))
    requires |s| > 0
    ensures |r.1| < |s|
  {
    if !Octal(s) then (s[0], s[1..])
    else
      var a: int := s[0] - 48;
      if !Octal(s[1..]) then (a, s[1..])
      else
        var b: int := (a * 8 + (s[1] - 48)) % 256;
        if !Octal(s[2..]) then (b, s[2..]) else ((b * 8 + (s[2] - 48)) % 256, s[3..])
  }

  /** Lines 93-99 and 123-129: a label is added to the name, if it is not empty and there is room. */
  function AddLabel(name: seq<byte>, part: seq<byte>): (r: Option<seq<byte>>)
    requires |part| <= 63
  {
    if part == [] then Some(name) else if |name| + |part| + 1 > 255 then None else Some(name + [|part|] + part)
  }

  /** The rest of a text, after the labels `name` and with `part` begun. */
  function Scan(name: seq<byte>, part: seq<byte>, s: seq<byte>): (r: Option<seq<byte>>)
    requires |part| <= 63
    decreases |s|
  {
    if s == [] || s == [92] then
      var n := AddLabel(name, part);
      if n.None? || |n.value| + 1 > 255 then None else Some(n.value + [0])
    else if s[0] == 46 then
      var n := AddLabel(name, part);
      if n.None? then None else Scan(n.value, [], s[1..])
    else
      var (c, rest) := if s[0] == 92 then Unescape(s[1..]) else (s[0], s[1..]);
      if |part| >= 63 then None else Scan(name, part + [c], rest)
  }

  /** `dns_domain_fromdot`, lines 76-141; allocation apart. */
  method FromDot(buf: seq<byte>) returns (r: Option<seq<byte>>)
    ensures r == Scan([], [], buf)
    ensures r.Some? ==> IsName(r.value) && |r.value| <= 255
  {
    ScanName([], [], buf);
    var part: seq<byte>, name: seq<byte>, s := [], [], buf;
    while s != []
      invariant |part| <= 63 && Scan(name, part, s) == Scan([], [], buf)
      decreases |s|
    {
      var ch := s[0];
      if ch == 46 {
        var n := AddLabel(name, part);
        if n.None? { return None; }
        name, part, s := n.value, [], s[1..];
        continue;
      }
      var rest := s[1..];
      if ch == 92 {
        if rest == [] {
          assert s == [92];
          break;
        }
        var u := Unescape(rest);
        ch, rest := u.0, u.1;
      }
      if |part| >= 63 { return None; }
      part := part + [ch];
      s := rest;
    }
    var n := AddLabel(name, part);
    if n.None? || |n.value| + 1 > 255 { return None; }
    return Some(n.value + [0]);
  }

  /** Whatever is accepted is a name of at most 255 bytes. */
  lemma {:induction false} ScanName(name: seq<byte>, part: seq<byte>, s: seq<byte>)
    requires |part| <= 63 && IsName(name + [0])
    ensures Scan(name, part, s).Some? ==> IsName(Scan(name, part, s).value) && |Scan(name, part, s).value| <= 255
    decreases |s|
  {
    if part != [] {
      SnocLabel(name, part);
    }
    if s == [] || s == [92] {
    } else if s[0] == 46 {
      var n := AddLabel(name, part);
      if n.Some? { ScanName(n.value, [], s[1..]); }
    } else {
      var (c, rest) := if s[0] == 92 then Unescape(s[1..]) else (s[0], s[1..]);
      if |part| < 63 { ScanName(name, part + [c], rest); }
    }
  }

  lemma {:induction false} SnocLabel(name: seq<byte>, l: seq<byte>)
    requires IsName(name + [0]) && 0 < |l| <= 63
    ensures IsName(name + [|l|] + l + [0])
    decreases |name|
  {
    var d, e := name + [0], name + [|l|] + l + [0];
    if name == [] {
      assert e[1 + e[0]..] == [0];
    } else {
      assert d[0] == name[0] && |d| > 1;
      var n := 1 + name[0];
      assert d[n..] == name[n..] + [0];
      SnocLabel(name[n..], l);
      assert e[n..] == name[n..] + [|l|] + l + [0];
    }
  }

  // ----- the round trip

  lemma ScanEscape(name: seq<byte>, part: seq<byte>, c: byte, t: seq<byte>)
    requires |part| < 63
    ensures Scan(name, part, Escape(c) + t) == Scan(name, part + [LowerByte(c)], t)
  {
    var b := LowerByte(c);
    var s := Escape(c) + t;
    if Plain(b) {
      assert s[0] == b && s[1..] == t;
    } else {
      var u := s[1..];
      assert u[0] == 48 + b / 64 && u[1] == 48 + b / 8 % 8 && u[2] == 48 + b % 8;
      assert u[1..][0] == u[1] && u[2..][0] == u[2] && u[3..] == t;
      OctalDigits(b);
      assert Unescape(u) == (b, t);
    }
  }

  lemma OctalDigits(b: byte)
    ensures ((b / 64) * 8 + b / 8 % 8) % 256 == b / 8 && (b / 8 * 8 + b % 8) % 256 == b
  {
  }

  lemma {:induction false} ScanLabel(name: seq<byte>, part: seq<byte>, l: seq<byte>, t: seq<byte>)
    requires |part| + |l| <= 63
    ensures Scan(name, part, LabelText(l) + t) == Scan(name, part + Lower(l), t)
    decreases |l|
  {
    hide Scan, Escape;
    if l == [] {
      assert LabelText(l) + t == t && part + Lower(l) == part;
    } else {
      assert LabelText(l) + t == Escape(l[0]) + (LabelText(l[1..]) + t);
      ScanEscape(name, part, l[0], LabelText(l[1..]) + t);
      ScanLabel(name, part + [LowerByte(l[0])], l[1..], t);
      assert part + [LowerByte(l[0])] + Lower(l[1..]) == part + Lower(l);
    }
  }

  lemma {:induction false} ScanLabels(name: seq<byte>, d: seq<byte>)
    requires IsName(d) && d[0] != 0 && |name| + |d| <= 255
    ensures Scan(name, [], Labels(d)) == Some(name + Lower(d))
    decreases |d|
  {
    hide Scan, Labels, LabelText, Lower, AddLabel;
    var p, l := Parent(d), d[1..1 + d[0]];
    var low := Lower(l);
    var name' := name + [|low|] + low;
    NameBasics(d);
    FirstLower(d);
    AddFits(name, low);
    Regroup(name, d[0], low, Lower(p));
    LabelsIs(d);
    assert [] + low == low;
    RootOnly(p);
    LowerRoot();
    hide IsName;
    if p[0] == 0 {
      assert LabelText(l) + [] == LabelText(l);
      ScanLabel(name, [], l, []);
      ScanNothing(name, low);
    } else {
      ScanLabel(name, [], l, [46] + Labels(p));
      ScanDot(name, low, Labels(p));
      ScanLabels(name', p);
    }
  }

  lemma FirstLower(d: seq<byte>)
    requires IsName(d) && d[0] != 0
    ensures Lower(d) == [d[0]] + Lower(d[1..1 + d[0]]) + Lower(Parent(d))
  {
    hide Lower, IsName;
    var p, l := Parent(d), d[1..1 + d[0]];
    assert d == [d[0]] + l + p;
    NameBasics(d);
    LowerParts(d[0], l, p);
  }

  lemma AddFits(name: seq<byte>, low: seq<byte>)
    requires 0 < |low| <= 63 && |name| + |low| + 1 <= 255
    ensures AddLabel(name, low) == Some(name + [|low|] + low)
  {
  }

  lemma Regroup(name: seq<byte>, n: byte, low: seq<byte>, lp: seq<byte>)
    ensures name + ([n] + low + lp) == name + [n] + low + lp
  {
  }

  lemma NameBasics(d: seq<byte>)
    requires IsName(d) && d[0] != 0
    ensures |d| > 1 && d[0] < 64 && 1 + d[0] < |d|
  {
  }

  lemma RootOnly(d: seq<byte>)
    requires IsName(d)
    ensures d[0] == 0 ==> d == [0]
  {
  }

  lemma LowerRoot()
    ensures Lower([0]) == [0]
  {
  }

  lemma ScanDot(name: seq<byte>, part: seq<byte>, t: seq<byte>)
    requires |part| <= 63
    ensures Scan(name, part, [46] + t) == if AddLabel(name, part).None? then None
                                          else Scan(AddLabel(name, part).value, [], t)
  {
    var s := [46] + t;
    assert s[0] == 46 && s[1..] == t;
  }

  lemma ScanNothing(name: seq<byte>, part: seq<byte>)
    requires |part| <= 63
    ensures Scan(name, part, []) == if AddLabel(name, part).None? || |AddLabel(name, part).value| + 1 > 255 then None
                                    else Some(AddLabel(name, part).value + [0])
  {
  }

  lemma LowerParts(n: byte, l: seq<byte>, p: seq<byte>)
    requires n < 64
    ensures Lower([n] + l + p) == [n] + Lower(l) + Lower(p)
  {
    LowerConcat([n] + l, p);
    LowerConcat([n], l);
    assert Lower([n]) == [n];
  }

  /** Every name of at most 255 bytes is recovered from its text, in lower case. */
  lemma DotRoundTrip(d: seq<byte>)
    requires IsName(d) && |d| <= 255
    ensures Scan([], [], ToDot(d)) == Some(Lower(d))
  {
    if d[0] == 0 {
      var none: seq<byte> := [];
      ScanDot(none, none, none);
      ScanNothing(none, none);
      assert ToDot(d) == [46] + none && none + [0] == [0];
      assert d == [0] && Lower(d) == [0];
    } else {
      ScanLabels([], d);
      assert [] + Lower(d) == Lower(d);
    }
  }
}
