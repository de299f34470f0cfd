/**
Domain names in wire form (`dq/dns_domain.c`): labels of 1 to 63 bytes, each after its length
byte, ended by a zero byte. Names are compared without regard to case.
*/
module Names {
  import opened Bits

  /** `d` is exactly one name in wire form. */
  predicate IsName(d: seq<byte>)
  {
    |d| >= 1 && if d[0] == 0 then |d| == 1 else d[0] < 64 && 1 + d[0] < |d| && IsName(d[1 + d[0]..])
  }

  /** The name without its first label. */
  function Parent(d: seq<byte>): (p: seq<byte>)
    requires IsName(d) && d[0] != 0
    ensures IsName(p) && |p| < |d| && |p| == |d| - 1 - d[0]
  {
    d[1 + d[0]..]
  }

  /** `case_lowerb`: only the ASCII capitals change. */
  function LowerByte(b: byte): byte { if 65 <= b <= 90 then b + 32 else b }

  function Lower(d: seq<byte>): (l: seq<byte>)
    ensures |l| == |d| && forall i :: 0 <= i < |d| ==> l[i] == LowerByte(d[i])
  {
    seq(|d|, i requires 0 <= i < |d| => LowerByte(d[i]))
  }

  /** `dns_domain_equal`, lines 42-49. */
  predicate Equal(a: seq<byte>, b: seq<byte>) { Lower(a) == Lower(b) }

  lemma LowerConcat(a: seq<byte>, b: seq<byte>)
    ensures Lower(a + b) == Lower(a) + Lower(b)
  {
  }

  lemma LowerSlice(d: seq<byte>, i: nat, j: nat)
    requires i <= j <= |d|
    ensures Lower(d[i..j]) == Lower(d)[i..j]
  {
  }

  lemma EqualLength(a: seq<byte>, b: seq<byte>)
    requires Equal(a, b)
    ensures |a| == |b|
  {
    assert |Lower(a)| == |Lower(b)|;
  }

  /** A length byte is below 64 and so is not a letter: equal names have equal label boundaries. */
  lemma EqualParent(a: seq<byte>, b: seq<byte>)
    requires IsName(a) && IsName(b) && Equal(a, b)
    ensures a[0] == b[0] && (a[0] != 0 ==> Equal(Parent(a), Parent(b)))
  {
    assert Lower(a)[0] == Lower(b)[0];
    if a[0] != 0 {
      LowerSlice(a, 1 + a[0], |a|);
      LowerSlice(b, 1 + b[0], |b|);
    }
  }

  /** `d` with its trailing part from byte `n` on, where `n` is a label boundary. */
  ghost predicate Boundary(d: seq<byte>, n: nat)
    requires IsName(d)
    decreases |d|
  {
    n == 0 || (d[0] != 0 && n >= 1 + d[0] && Boundary(Parent(d), n - 1 - d[0]))
  }

  lemma {:induction false} BoundaryName(d: seq<byte>, n: nat)
    requires IsName(d) && Boundary(d, n)
    ensures n < |d| && IsName(d[n..])
    decreases |d|
  {
    if n != 0 {
      var l := 1 + d[0];
      BoundaryName(Parent(d), n - l);
      assert Parent(d)[n - l..] == d[n..];
    }
  }

  lemma {:induction false} BoundaryNext(d: seq<byte>, n: nat)
    requires IsName(d) && Boundary(d, n) && n < |d| && d[n] != 0
    ensures IsName(d[n..]) && n + 1 + d[n] <= |d| && Boundary(d, n + 1 + d[n])
    decreases |d|
  {
    BoundaryName(d, n);
    if n == 0 {
      assert d[0..] == d;
      assert Boundary(Parent(d), 0);
    } else {
      var l := 1 + d[0];
      assert Parent(d)[n - l] == d[n];
      BoundaryName(Parent(d), n - l);
      BoundaryNext(Parent(d), n - l);
    }
  }

  /** `little` is the tail of `big` from some label on, without regard to case. */
  ghost predicate Suffix(big: seq<byte>, little: seq<byte>)
    requires IsName(big)
  {
    exists n :: 0 <= n <= |big| && Boundary(big, n) && Equal(big[n..], little)
  }

  lemma {:induction false} BoundaryEqual(a: seq<byte>, b: seq<byte>, n: nat)
    requires IsName(a) && IsName(b) && Equal(a, b) && Boundary(a, n)
    ensures Boundary(b, n)
    decreases |a|
  {
    if n != 0 {
      EqualParent(a, b);
      BoundaryEqual(Parent(a), Parent(b), n - 1 - a[0]);
    }
  }

  /** Names that are equal have the same tails. */
  lemma SuffixEqual(a: seq<byte>, b: seq<byte>, little: seq<byte>)
    requires IsName(a) && IsName(b) && Equal(a, b) && Suffix(a, little)
    ensures Suffix(b, little)
  {
    hide IsName, Boundary;
    var n :| 0 <= n <= |a| && Boundary(a, n) && Equal(a[n..], little);
    BoundaryEqual(a, b, n);
    assert |a| == |Lower(a)| == |b|;
    LowerSlice(a, n, |a|);
    LowerSlice(b, n, |b|);
    assert Equal(b[n..], little);
  }

  /** `dns_domain_length`, lines 8-18, on memory whose first `n` bytes are a name. */
  method Length(m: seq<byte>, ghost n: nat) returns (len: nat)
    requires n <= |m| && IsName(m[..n])
    ensures len == n
  {
    ghost var d := m[..n];
    var x := 0;
    assert d[0..] == d;
    while m[x] != 0
      invariant x < n && IsName(d[x..])
      decreases n - x
    {
      var c := m[x];
      assert d[x..][0] == c;
      assert d[x..][1 + c..] == d[x + 1 + c..];
      x := x + 1 + c;
    }
    assert d[x..][0] == 0;
    len := x + 1;
  }

  /** No tail of `big` from a boundary before `i` on equals `little`. */
  ghost predicate NoneBefore(big: seq<byte>, little: seq<byte>, i: nat)
    requires IsName(big)
  {
    forall n :: 0 <= n < i && n <= |big| && Boundary(big, n) ==> !Equal(big[n..], little)
  }

  lemma NoneBeforeNext(big: seq<byte>, little: seq<byte>, i: nat)
    requires IsName(big) && Boundary(big, i) && i < |big| && big[i] != 0
    requires NoneBefore(big, little, i) && !Equal(big[i..], little)
    ensures NoneBefore(big, little, i + 1 + big[i])
  {
    hide Equal;
    NoBoundaryBetween(big, i);
  }

  lemma NoneAtAll(big: seq<byte>, little: seq<byte>, i: nat)
    requires IsName(big) && Boundary(big, i) && i < |big| && big[i] == 0
    requires NoneBefore(big, little, i) && !Equal(big[i..], little)
    ensures !Suffix(big, little)
  {
    hide Equal;
    LastBoundary(big, i);
  }

  /** `dns_domain_suffixpos`, lines 63-74, and `dns_domain_suffix`, lines 51-61, which differ in their result only. */
  method FindSuffix(big: seq<byte>, little: seq<byte>) returns (found: bool, pos: nat)
    requires IsName(big) && IsName(little)
    ensures found <==> Suffix(big, little)
    ensures found ==> pos < |big| && Boundary(big, pos) && Equal(big[pos..], little)
    ensures !found ==> pos == 0
  {
    hide Equal, NoneBefore, IsName;
    pos := 0;
    NoneBeforeStart(big, little);
    while true
      invariant pos < |big| && Boundary(big, pos) && NoneBefore(big, little, pos)
      decreases |big| - pos
    {
      if Equal(big[pos..], little) {
        return true, pos;
      }
      var c := big[pos];
      if c == 0 {
        NoneAtAll(big, little, pos);
        return false, 0;
      }
      BoundaryNext(big, pos);
      NoneBeforeNext(big, little, pos);
      BoundaryName(big, pos + 1 + c);
      pos := pos + 1 + c;
    }
  }

  lemma NoneBeforeStart(big: seq<byte>, little: seq<byte>)
    requires IsName(big)
    ensures |big| > 0 && Boundary(big, 0) && NoneBefore(big, little, 0)
  {
  }

  lemma {:induction false} NoBoundaryBetween(d: seq<byte>, n: nat)
    requires IsName(d) && Boundary(d, n) && n < |d| && d[n] != 0
    ensures forall i :: n < i < n + 1 + d[n] ==> !Boundary(d, i)
    decreases |d|
  {
    if n != 0 {
      var l := 1 + d[0];
      BoundaryName(Parent(d), n - l);
      NoBoundaryBetween(Parent(d), n - l);
      forall i | n < i < n + 1 + d[n] ensures !Boundary(d, i) {
        assert !Boundary(Parent(d), i - l);
      }
    }
  }

  lemma {:induction false} LastBoundary(d: seq<byte>, n: nat)
    requires IsName(d) && Boundary(d, n) && n < |d| && d[n] == 0
    ensures n == |d| - 1 && forall i :: i > n ==> !Boundary(d, i)
    decreases |d|
  {
    if n != 0 {
      var l := 1 + d[0];
      BoundaryName(Parent(d), n - l);
      LastBoundary(Parent(d), n - l);
      forall i | i > n ensures !Boundary(d, i) {
        assert i >= l ==> !Boundary(Parent(d), i - l);
      }
    }
  }

  /** A boundary of a name is one of its tail. */
  lemma {:induction false} BoundarySub(d: seq<byte>, b: nat, i: nat)
    requires IsName(d) && Boundary(d, b) && Boundary(d, i) && b <= i
    ensures b < |d| && IsName(d[b..]) && Boundary(d[b..], i - b)
    decreases |d|
  {
    hide IsName, Boundary;
    if b == 0 {
      BoundaryName(d, 0);
      assert d[0..] == d;
    } else {
      BoundaryInParent(d, b);
      BoundaryInParent(d, i);
      var l: nat, p := 1 + d[0] as int, Parent(d);
      BoundarySub(p, b - l, i - l);
      assert p[b - l..] == d[b..];
    }
  }

  lemma BoundaryInParent(d: seq<byte>, i: nat)
    requires IsName(d) && Boundary(d, i) && i > 0
    ensures |d| > 0 && d[0] != 0 && 1 + d[0] <= i && Boundary(Parent(d), i - 1 - d[0])
  {
  }
}
