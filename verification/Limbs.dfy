/** Numbers written in limbs of 32 bits, least significant first, as in `fe.c`. A limb may hold more than 32 bits. */
module Limbs {
  import opened Bits

  function Val(s: seq<int>): int
  {
    if |s| == 0 then 0 else s[0] + 0x1_0000_0000 * Val(s[1..])
  }

  /** 2 to the power 32 n: the weight of limb `n`. */
  function Base(n: nat): (b: nat)
    ensures b >= 1
  {
    if n == 0 then 1 else 0x1_0000_0000 * Base(n - 1)
  }

  lemma {:induction false} BaseAdd(m: nat, n: nat)
    ensures Base(m + n) == Base(m) * Base(n)
  {
    if m != 0 {
      BaseAdd(m - 1, n);
      MulWord(Base(m - 1), Base(n));
    }
  }

  lemma MulWord(p: int, q: int)
    ensures 0x1_0000_0000 * p * q == 0x1_0000_0000 * (p * q)
  {
  }

  lemma {:induction false} ValSnoc(s: seq<int>, x: int)
    ensures Val(s + [x]) == Val(s) + x * Base(|s|)
  {
    if |s| == 0 {
      assert s + [x] == [x];
      assert Val([x][1..]) == 0;
    } else {
      ValSnoc(s[1..], x);
      assert (s + [x])[1..] == s[1..] + [x];
      MulWord(Base(|s| - 1), x);
      assert x * Base(|s| - 1) == Base(|s| - 1) * x;
    }
  }

  /** The prefix up to and including limb `i`. */
  lemma ValTake(s: seq<int>, i: nat)
    requires i < |s|
    ensures Val(s[..i + 1]) == Val(s[..i]) + s[i] * Base(i)
  {
    assert s[..i + 1] == s[..i] + [s[i]];
    ValSnoc(s[..i], s[i]);
  }

  lemma {:induction false} ValUpdate(s: seq<int>, k: nat, x: int)
    requires k < |s|
    ensures Val(s[k := x]) == Val(s) + (x - s[k]) * Base(k)
  {
    if k == 0 {
      assert s[k := x][1..] == s[1..];
    } else {
      ValUpdate(s[1..], k - 1, x);
      assert s[k := x][1..] == s[1..][k - 1 := x];
      MulWord(x - s[k], Base(k - 1));
      assert (x - s[k]) * Base(k) == (0x1_0000_0000 * (x - s[k])) * Base(k - 1);
    }
  }

  lemma {:induction false} ValConcat(a: seq<int>, b: seq<int>)
    ensures Val(a + b) == Val(a) + Base(|a|) * Val(b)
  {
    if |a| == 0 {
      assert a + b == b;
    } else {
      ValConcat(a[1..], b);
      assert (a + b)[1..] == a[1..] + b;
      MulWord(Base(|a| - 1), Val(b));
    }
  }

  ghost predicate Bounded(s: seq<int>, m: int) { forall i :: 0 <= i < |s| ==> 0 <= s[i] <= m }

  lemma {:induction false} ValBound(s: seq<int>, m: nat)
    requires Bounded(s, m * 0xffff_ffff)
    ensures 0 <= Val(s) <= m * (Base(|s|) - 1)
  {
    if |s| != 0 {
      ValBound(s[1..], m);
      var b := Base(|s| - 1);
      assert 0x1_0000_0000 * (m * (b - 1)) + m * 0xffff_ffff == m * (0x1_0000_0000 * b - 1);
    }
  }

  lemma WordBound(s: seq<u32>)
    ensures 0 <= Val(s) < Base(|s|)
  {
    ValBound(s, 1);
  }

  /** Adding `t` to a carry at weight `b` and cutting a limb off. */
  lemma CarryStep(u: int, t: int, b: int)
    ensures (u + t) % 0x1_0000_0000 * b + (u + t) / 0x1_0000_0000 * (0x1_0000_0000 * b) == u * b + t * b
  {
    var v := u + t;
    var l, h := v % 0x1_0000_0000, v / 0x1_0000_0000;
    assert v == 0x1_0000_0000 * h + l;
    MulWord(h, b);
    assert h * (0x1_0000_0000 * b) == 0x1_0000_0000 * (h * b);
    assert (0x1_0000_0000 * h + l) * b == 0x1_0000_0000 * h * b + l * b;
    assert (u + t) * b == u * b + t * b;
  }

  lemma BaseAt8()
    ensures Base(7) == 0x1_0000_0000_0000_0000_0000_0000_0000_0000_0000_0000_0000_0000_0000_0000
    ensures Base(8) == 0x1_0000_0000_0000_0000_0000_0000_0000_0000_0000_0000_0000_0000_0000_0000_0000_0000
  {
    assert Base(4) == 0x1_0000_0000_0000_0000_0000_0000_0000_0000;
    assert Base(3) == 0x1_0000_0000_0000_0000_0000_0000;
    hide Base;
    BaseAdd(4, 3);
    BaseAdd(4, 4);
  }
}
