/**
The order in which `dq/query.c` sorts the records of a packet: by type and class, then by the
length of the owner name, then by the name without regard to case, then by position.
*/
module RecordOrder {
  import opened Bits
  import opened Names
  import opened Packet

  /** The first byte in which the strings differ is smaller in `a`. */
  ghost predicate LexLess(a: seq<byte>, b: seq<byte>)
  {
    exists i :: 0 <= i < |a| && i < |b| && SameUpTo(a, b, i) && a[i] < b[i]
  }

  ghost predicate SameUpTo(a: seq<byte>, b: seq<byte>, i: nat)
    requires i <= |a| && i <= |b|
  {
    forall x :: 0 <= x < i ==> a[x] == b[x]
  }

  lemma LexTrans(a: seq<byte>, b: seq<byte>, c: seq<byte>)
    requires LexLess(a, b) && LexLess(b, c)
    ensures LexLess(a, c)
  {
    var i :| 0 <= i < |a| && i < |b| && SameUpTo(a, b, i) && a[i] < b[i];
    var j :| 0 <= j < |b| && j < |c| && SameUpTo(b, c, j) && b[j] < c[j];
    var m := if i < j then i else j;
    assert SameUpTo(a, c, m) && a[m] < c[m];
  }

  lemma LexAsym(a: seq<byte>, b: seq<byte>)
    requires LexLess(a, b)
    ensures a != b && !LexLess(b, a)
  {
    var i :| 0 <= i < |a| && i < |b| && SameUpTo(a, b, i) && a[i] < b[i];
    forall j | 0 <= j < |b| && j < |a| && SameUpTo(b, a, j) ensures b[j] >= a[j] {
    }
  }

  lemma {:induction false} LexTotal(a: seq<byte>, b: seq<byte>, i: nat)
    requires |a| == |b| && a != b && i <= |a| && SameUpTo(a, b, i)
    ensures LexLess(a, b) || LexLess(b, a)
    decreases |a| - i
  {
    if i < |a| && a[i] == b[i] {
      LexTotal(a, b, i + 1);
    } else if i < |a| {
      assert SameUpTo(b, a, i);
    }
  }

  /** `byte_diff`, lines 72-84 of `dq/byte.c`. */
  method ByteDiff(y: seq<byte>, x: seq<byte>) returns (r: int)
    requires |x| == |y|
    ensures r < 0 <==> LexLess(y, x)
    ensures r > 0 <==> LexLess(x, y)
    ensures r == 0 <==> x == y
  {
    for i := 0 to |y|
      invariant SameUpTo(y, x, i)
    {
      if x[i] != y[i] {
        assert SameUpTo(x, y, i);
        if y[i] < x[i] { LexAsym(y, x); } else { LexAsym(x, y); }
        return (y[i] as int) - (x[i] as int);
      }
    }
    assert x == y;
    return 0;
  }

  /** Lines 9-12 of `case_diffb`: the byte less 'A', with wrap-around, decides what is added back. */
  function Folded(c: byte): (r: byte)
    ensures r == LowerByte(c)
  {
    var a: int := ((c as int) - 65) % 256;
    if a <= 25 then a + 97 else (a + 65) % 256
  }

  /** `case_diffb`, lines 3-16 of `dq/case.c`. */
  method CaseDiff(y: seq<byte>, x: seq<byte>) returns (r: int)
    requires |x| == |y|
    ensures r < 0 <==> LexLess(Lower(y), Lower(x))
    ensures r > 0 <==> LexLess(Lower(x), Lower(y))
    ensures r == 0 <==> Equal(x, y)
  {
    ghost var lx, ly := Lower(x), Lower(y);
    for i := 0 to |y|
      invariant SameUpTo(ly, lx, i)
    {
      var a: byte, b: byte := Folded(x[i]), Folded(y[i]);
      if a != b {
        assert lx[i] == a && ly[i] == b && SameUpTo(lx, ly, i);
        if b < a { LexAsym(ly, lx); } else { LexAsym(lx, ly); }
        return (b as int) - (a as int);
      }
    }
    assert lx == ly;
    return 0;
  }

  // ----- records

  ghost predicate Reads(buf: seq<byte>, pos: nat, n: seq<byte>)
  {
    exists j: int :: Spells(buf, pos, n, j) && WithinLimits(n, j)
  }

  /** The name `dns_packet_getname` reads at `pos`; empty if it fails. */
  ghost function NameAt(buf: seq<byte>, pos: nat): seq<byte>
  {
    if n: seq<byte> :| Reads(buf, pos, n) then n else []
  }

  lemma NameAtUnique(buf: seq<byte>, pos: nat, n: seq<byte>, j: int)
    requires Spells(buf, pos, n, j) && WithinLimits(n, j)
    ensures NameAt(buf, pos) == n
  {
    hide Spells;
    assert Reads(buf, pos, n);
    var m := NameAt(buf, pos);
    var k: int :| Spells(buf, pos, m, k) && WithinLimits(m, k);
    SpellsUnique(buf, pos, n, j, m, k);
  }

  /** `dns_packet_getname` as a function of the bytes: the name, and the position after it. */
  method NameHere(buf: seq<byte>, pos: nat) returns (r: nat, name: seq<byte>)
    ensures r != 0 <==> NameAt(buf, pos) != []
    ensures r != 0 ==> name == NameAt(buf, pos) && r == SkipName(buf, pos) && IsName(name) && |name| <= 255
  {
    hide Spells;
    ghost var j;
    r, name, j := GetName(buf, pos);
    if r != 0 {
      NameAtUnique(buf, pos, name, j);
      SpellsName(buf, pos, name, j);
    } else {
      forall n: seq<byte> ensures !Reads(buf, pos, n) {
      }
    }
  }

  /** A record starts at `pos`: a name, and ten more bytes. */
  ghost predicate Readable(buf: seq<byte>, pos: nat)
  {
    NameAt(buf, pos) != [] && SkipName(buf, pos) + 10 <= |buf|
  }

  /** What the order looks at: type and class, owner name, and the position after the name. */
  datatype View = View(head: seq<byte>, name: seq<byte>, after: nat)

  ghost function ViewAt(buf: seq<byte>, pos: nat): (v: View)
    ensures |v.head| == 4
  {
    var h := SkipName(buf, pos);
    View(if h + 4 <= |buf| then buf[h..h + 4] else [0, 0, 0, 0], Lower(NameAt(buf, pos)), h)
  }

  ghost predicate Before(a: View, b: View)
  {
    if a.head != b.head then LexLess(a.head, b.head)
    else if |a.name| != |b.name| then |a.name| < |b.name|
    else if a.name != b.name then LexLess(a.name, b.name)
    else a.after < b.after
  }

  lemma BeforeTrans(a: View, b: View, c: View)
    requires Before(a, b) && Before(b, c)
    ensures Before(a, c)
  {
    hide LexLess;
    if a.head != b.head && b.head != c.head {
      LexTrans(a.head, b.head, c.head);
      if a.head == c.head { LexAsym(a.head, b.head); LexAsym(b.head, c.head); }
      LexAsym(a.head, c.head);
    } else if a.name != b.name && b.name != c.name && |a.name| == |b.name| == |c.name| && a.head == b.head == c.head {
      LexTrans(a.name, b.name, c.name);
      LexAsym(a.name, c.name);
    }
  }

  lemma BeforeAsym(a: View, b: View)
    requires Before(a, b)
    ensures !Before(b, a)
  {
    hide LexLess;
    if a.head != b.head { LexAsym(a.head, b.head); }
    else if a.name != b.name && |a.name| == |b.name| { LexAsym(a.name, b.name); }
  }

  /** Records at different positions are never level. */
  lemma BeforeTotal(a: View, b: View)
    requires |a.head| == |b.head| && a.after != b.after
    ensures Before(a, b) || Before(b, a)
  {
    hide LexLess;
    if a.head != b.head { LexTotal(a.head, b.head, 0); }
    else if a.name != b.name && |a.name| == |b.name| { LexTotal(a.name, b.name, 0); }
  }

  /** `x` need not move past `y`. */
  ghost predicate Le(buf: seq<byte>, x: nat, y: nat) { !Before(ViewAt(buf, y), ViewAt(buf, x)) }

  lemma LeRefl(buf: seq<byte>, x: nat)
    ensures Le(buf, x, x)
  {
    var v := ViewAt(buf, x);
    if Before(v, v) { BeforeAsym(v, v); }
  }

  lemma LeTrans(buf: seq<byte>, x: nat, y: nat, z: nat)
    requires Le(buf, x, y) && Le(buf, y, z)
    ensures Le(buf, x, z)
  {
    hide Before, ViewAt;
    NotBeforeTrans(ViewAt(buf, z), ViewAt(buf, y), ViewAt(buf, x));
  }

  lemma NotBeforeTrans(a: View, b: View, c: View)
    requires |a.head| == |b.head| == |c.head| && !Before(a, b) && !Before(b, c)
    ensures !Before(a, c)
  {
    if Before(a, c) {
      if b.after != c.after {
        BeforeTotal(b, c);
        BeforeTrans(a, c, b);
      } else if a.after != b.after {
        BeforeTotal(a, b);
        BeforeTrans(b, a, c);
      } else {
        NotBeforeLevel(a, b, c);
      }
    }
  }

  lemma NotBeforeLevel(a: View, b: View, c: View)
    requires |a.head| == |b.head| == |c.head| && !Before(a, b) && !Before(b, c) && a.after == b.after == c.after
    ensures !Before(a, c)
  {
    hide LexLess;
    if Before(a, c) {
      Level(a, b);
      Level(b, c);
      if Before(b, a) && Before(c, b) {
        BeforeTrans(c, b, a);
        BeforeAsym(c, a);
      }
    }
  }

  /** At the same position, not being ordered means being equal. */
  lemma Level(a: View, b: View)
    requires |a.head| == |b.head| && a.after == b.after
    ensures Before(a, b) || Before(b, a) || a == b
  {
    hide LexLess;
    if a.head != b.head { LexTotal(a.head, b.head, 0); }
    else if a.name != b.name && |a.name| == |b.name| { LexTotal(a.name, b.name, 0); }
  }

  lemma NotLessIsLe(buf: seq<byte>, x: nat, y: nat)
    requires Before(ViewAt(buf, x), ViewAt(buf, y))
    ensures Le(buf, x, y)
  {
    BeforeAsym(ViewAt(buf, x), ViewAt(buf, y));
  }

  /** `smaller`, lines 273-301, on two records of the packet. */
  method Smaller(buf: seq<byte>, pos1: nat, pos2: nat) returns (less: bool)
    requires Readable(buf, pos1) && Readable(buf, pos2)
    ensures less <==> !Le(buf, pos2, pos1)
    ensures less ==> Le(buf, pos1, pos2)
  {
    hide LexLess, ViewAt, Lower, Before, SkipName;
    var p1, t1 := NameHere(buf, pos1);
    var p2, t2 := NameHere(buf, pos2);
    var q1, h1 := Copy(buf, p1, 10);
    var q2, h2 := Copy(buf, p2, 10);
    ViewIs(buf, pos1, h1);
    ViewIs(buf, pos2, h2);
    less := SmallerView(h1[..4], t1, p1, h2[..4], t2, p2);
    if less { NotLessIsLe(buf, pos1, pos2); }
  }

  lemma ViewIs(buf: seq<byte>, pos: nat, h: seq<byte>)
    requires Readable(buf, pos) && h == buf[SkipName(buf, pos)..SkipName(buf, pos) + 10]
    ensures ViewAt(buf, pos) == View(h[..4], Lower(NameAt(buf, pos)), SkipName(buf, pos))
  {
    var p := SkipName(buf, pos);
    assert h[..4] == buf[p..p + 4];
  }

  /** Lines 286-300: the comparison, once both records are read. */
  method SmallerView(h1: seq<byte>, t1: seq<byte>, p1: nat, h2: seq<byte>, t2: seq<byte>, p2: nat) returns (less: bool)
    requires |h1| == |h2|
    ensures less <==> Before(View(h1, Lower(t1), p1), View(h2, Lower(t2), p2))
  {
    hide LexLess;
    var r := ByteDiff(h1, h2);
    if r < 0 { return true; }
    if r > 0 { LexAsym(h2, h1); return false; }
    if |t1| < |t2| { return true; }
    if |t1| > |t2| { return false; }
    r := CaseDiff(t1, t2);
    if r < 0 { LexAsym(Lower(t1), Lower(t2)); return true; }
    if r > 0 { LexAsym(Lower(t2), Lower(t1)); return false; }
    return p1 < p2;
  }
}
