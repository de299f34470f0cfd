/**
The bottom-up heapsort of `dq/query.c` (lines 884-901) on the positions of the records of a
packet, and the sets the sorted records form (lines 903-920).
*/
module RecordSort {
  import opened Bits
  import opened Names
  import opened Packet
  import opened RecordOrder

  /** The heap is numbered from 1. */
  function At(r: seq<nat>, c: nat): nat
    requires 1 <= c <= |r|
  {
    r[c - 1]
  }

  function Put(r: seq<nat>, c: nat, x: nat): (r': seq<nat>)
    requires 1 <= c <= |r|
    ensures |r'| == |r| && At(r', c) == x && forall d :: 1 <= d <= |r| && d != c ==> At(r', d) == At(r, d)
  {
    r[c - 1 := x]
  }

  ghost predicate Under(buf: seq<byte>, r: seq<nat>, c: nat)
    requires 2 <= c <= |r|
  {
    Le(buf, At(r, c), At(r, c / 2))
  }

  /** Every node whose parent is in `i..` is not above its parent, except the children of `hole`. */
  ghost predicate HeapBut(buf: seq<byte>, r: seq<nat>, i: nat, j: nat, hole: nat)
    requires 1 <= i && j <= |r|
  {
    forall c :: 2 * i <= c <= j && c / 2 != hole ==> Under(buf, r, c)
  }

  ghost predicate Heap(buf: seq<byte>, r: seq<nat>, i: nat, j: nat)
    requires 1 <= i && j <= |r|
  {
    HeapBut(buf, r, i, j, 0)
  }

  /** The children of node `q` are not above `x`. */
  ghost predicate Covers(buf: seq<byte>, r: seq<nat>, j: nat, q: nat, x: nat)
    requires 1 <= q && j <= |r|
  {
    forall c :: 2 * q <= c <= 2 * q + 1 && c <= j ==> Le(buf, At(r, c), x)
  }

  /** On the way down the larger child of the hole moves up and the hole down. */
  lemma Down(buf: seq<byte>, r: seq<nat>, i: nat, j: nat, q: nat, p: nat)
    requires 1 <= i <= q && j <= |r| && p <= j && p / 2 == q && Covers(buf, r, j, q, At(r, p))
    requires if q == i then HeapBut(buf, r, i, j, i) else Heap(buf, r, i, j)
    ensures Heap(buf, Put(r, q, At(r, p)), i, j)
  {
    hide Le;
    var r' := Put(r, q, At(r, p));
    forall c | 2 * i <= c <= j ensures Under(buf, r', c) {
      if c / 2 == q {
        assert Le(buf, At(r, c), At(r, p));
      } else {
        assert Under(buf, r, c);
        if c == q {
          assert Under(buf, r, p);
          LeTrans(buf, At(r, p), At(r, q), At(r, q / 2));
        }
      }
    }
  }

  /** On the way up a smaller parent moves down and the hole up. */
  lemma Up(buf: seq<byte>, r: seq<nat>, i: nat, j: nat, q: nat, x: nat)
    requires 1 <= i && 2 * i <= q <= j <= |r| && Heap(buf, r, i, j) && Le(buf, At(r, q / 2), x)
    ensures var r' := Put(r, q, At(r, q / 2)); Heap(buf, r', i, j) && Covers(buf, r', j, q / 2, x)
  {
    hide Le;
    var p := q / 2;
    var r' := Put(r, q, At(r, p));
    forall c | 2 * i <= c <= j ensures Under(buf, r', c) {
      assert Under(buf, r, c);
      if c == q {
        LeRefl(buf, At(r, p));
      } else if c / 2 == q {
        assert Under(buf, r, q);
        LeTrans(buf, At(r, c), At(r, q), At(r, p));
      }
    }
    forall c | 2 * p <= c <= 2 * p + 1 && c <= j ensures Le(buf, At(r', c), x) {
      assert Under(buf, r, c);
      if c != q { LeTrans(buf, At(r, c), At(r, p), x); }
    }
  }

  /** The hole is filled where the parent is not smaller and the children are not larger. */
  lemma Fill(buf: seq<byte>, r: seq<nat>, i: nat, j: nat, q: nat, x: nat)
    requires 1 <= i <= q <= j <= |r| && Covers(buf, r, j, q, x)
    requires if q == i then HeapBut(buf, r, i, j, i) else q >= 2 * i && Heap(buf, r, i, j) && Le(buf, x, At(r, q / 2))
    ensures Heap(buf, Put(r, q, x), i, j)
  {
    hide Le;
    var r' := Put(r, q, x);
    forall c | 2 * i <= c <= j ensures Under(buf, r', c) {
      if c / 2 == q {
        assert Le(buf, At(r, c), x);
      } else if c != q {
        assert Under(buf, r, c);
      }
    }
  }

  /** The root of a heap is its largest element. */
  lemma {:induction false} Root(buf: seq<byte>, r: seq<nat>, j: nat, c: nat)
    requires 1 <= c <= j <= |r| && Heap(buf, r, 1, j)
    ensures Le(buf, At(r, c), At(r, 1))
    decreases c
  {
    hide Le;
    if c == 1 {
      LeRefl(buf, At(r, 1));
    } else {
      assert Under(buf, r, c);
      Root(buf, r, j, c / 2);
      LeTrans(buf, At(r, c), At(r, c / 2), At(r, 1));
    }
  }

  /** Moving the hole from `q` to `p` permutes the elements. */
  lemma Moves(r: seq<nat>, q: nat, p: nat, x: nat)
    requires 1 <= q <= |r| && 1 <= p <= |r| && p != q
    ensures multiset(Put(Put(r, q, At(r, p)), p, x)) == multiset(Put(r, q, x))
  {
    hide Put;
    var y, h := At(r, p), At(r, q);
    var m := Put(r, q, y);
    PutElements(r, q, x);
    PutElements(r, q, y);
    PutElements(m, p, x);
    assert At(m, p) == y;
    Exchange(multiset(Put(m, p, x)), multiset(m), multiset(r), multiset(Put(r, q, x)), multiset{x}, multiset{y},
             multiset{h});
  }

  lemma PutElements(r: seq<nat>, c: nat, x: nat)
    requires 1 <= c <= |r|
    ensures multiset(Put(r, c, x)) + multiset{At(r, c)} == multiset(r) + multiset{x}
  {
    assert r == r[..c - 1] + [r[c - 1]] + r[c..];
    assert Put(r, c, x) == r[..c - 1] + [x] + r[c..];
  }

  lemma Exchange(a: multiset<nat>, b: multiset<nat>, c: multiset<nat>, d: multiset<nat>, x: multiset<nat>,
                 y: multiset<nat>, h: multiset<nat>)
    requires a + y == b + x && b + h == c + y && d + h == c + x
    ensures a == d
  {
    forall e: nat ensures a[e] == d[e] {
      assert (a + y)[e] == (b + x)[e] && (b + h)[e] == (c + y)[e] && (d + h)[e] == (c + x)[e];
    }
  }

  ghost predicate AllReadable(buf: seq<byte>, r: seq<nat>)
  {
    forall c :: 1 <= c <= |r| ==> Readable(buf, At(r, c))
  }

  /** `x` is not above what is already sorted, after node `j`. */
  ghost predicate BelowTail(buf: seq<byte>, r: seq<nat>, j: nat, x: nat)
  {
    forall c :: j < c <= |r| ==> Le(buf, x, At(r, c))
  }

  ghost predicate AllBelow(buf: seq<byte>, r: seq<nat>, j: nat)
    requires j <= |r|
  {
    forall c :: 1 <= c <= j ==> BelowTail(buf, r, j, At(r, c))
  }

  ghost predicate SortedFrom(buf: seq<byte>, r: seq<nat>, j: nat)
  {
    forall c :: j < c <= |r| && c >= 1 ==> BelowTail(buf, r, c, At(r, c))
  }

  /** What holds of every element and of `x` while it is sifted. */
  ghost predicate Good(buf: seq<byte>, r: seq<nat>, j: nat, x: nat)
    requires j <= |r|
  {
    AllReadable(buf, r) && Readable(buf, x) && AllBelow(buf, r, j) && BelowTail(buf, r, j, x)
  }

  lemma GoodPut(buf: seq<byte>, r: seq<nat>, j: nat, x: nat, q: nat, y: nat)
    requires 1 <= q <= j <= |r| && Good(buf, r, j, x) && Readable(buf, y) && BelowTail(buf, r, j, y)
    ensures Good(buf, Put(r, q, y), j, x)
  {
    hide Le, Readable;
    var r' := Put(r, q, y);
    forall z | BelowTail(buf, r, j, z) ensures BelowTail(buf, r', j, z) {
      forall c | j < c <= |r'| ensures Le(buf, z, At(r', c)) { assert Le(buf, z, At(r, c)); }
    }
    forall c | 1 <= c <= j ensures BelowTail(buf, r', j, At(r', c)) {
      if c != q { assert BelowTail(buf, r, j, At(r, c)); }
    }
  }

  lemma GoodAt(buf: seq<byte>, r: seq<nat>, j: nat, x: nat, p: nat)
    requires 1 <= p <= j <= |r| && Good(buf, r, j, x)
    ensures Readable(buf, At(r, p)) && BelowTail(buf, r, j, At(r, p))
  {
  }

  /** Node `q` is in the subtree of node `i`. */
  ghost predicate InSubtree(q: nat, i: nat)
    ensures InSubtree(q, i) ==> q == i || q >= 2 * i
  {
    q == i || (q > i && InSubtree(q / 2, i))
  }

  /** A hole at `q` on its way through the heap of the nodes from `i` to `j`. */
  ghost predicate Sifting(buf: seq<byte>, r: seq<nat>, i: nat, j: nat, q: nat)
  {
    && 1 <= i <= q <= j <= |r| && InSubtree(q, i)
    && if q == i then HeapBut(buf, r, i, j, i) else Heap(buf, r, i, j)
  }

  /** The state of the sift: `r0` with `x` at `i`, permuted; what is after `j` as it was. */
  ghost predicate Sift(buf: seq<byte>, r0: seq<nat>, r: seq<nat>, i: nat, j: nat, q: nat, x: nat)
    requires 1 <= i <= j <= |r0|
  {
    && Sifting(buf, r, i, j, q) && Good(buf, r, j, x)
    && |r| == |r0| && multiset(Put(r, q, x)) == multiset(Put(r0, i, x))
       && forall c :: j < c <= |r0| ==> At(r, c) == At(r0, c)
  }

  lemma SiftDown(buf: seq<byte>, r0: seq<nat>, r: seq<nat>, i: nat, j: nat, q: nat, x: nat, p: nat)
    requires 1 <= i <= j <= |r0| && Sift(buf, r0, r, i, j, q, x)
    requires p <= j && p / 2 == q && Covers(buf, r, j, q, At(r, p))
    ensures Sift(buf, r0, Put(r, q, At(r, p)), i, j, p, x)
  {
    hide Good, HeapBut, Covers;
    Down(buf, r, i, j, q, p);
    Moves(r, q, p, x);
    GoodAt(buf, r, j, x, p);
    GoodPut(buf, r, j, x, q, At(r, p));
  }

  lemma SiftUp(buf: seq<byte>, r0: seq<nat>, r: seq<nat>, i: nat, j: nat, q: nat, x: nat)
    requires 1 <= i <= j <= |r0| && Sift(buf, r0, r, i, j, q, x) && q > i && Le(buf, At(r, q / 2), x)
    ensures var r' := Put(r, q, At(r, q / 2)); Sift(buf, r0, r', i, j, q / 2, x) && Covers(buf, r', j, q / 2, x)
  {
    hide Good, Covers, Le;
    Up(buf, r, i, j, q, x);
    Moves(r, q, q / 2, x);
    GoodAt(buf, r, j, x, q / 2);
    GoodPut(buf, r, j, x, q, At(r, q / 2));
    HeapIsHeapBut(buf, Put(r, q, At(r, q / 2)), i, j);
  }

  lemma HeapIsHeapBut(buf: seq<byte>, r: seq<nat>, i: nat, j: nat)
    requires 1 <= i && j <= |r| && Heap(buf, r, i, j)
    ensures HeapBut(buf, r, i, j, i)
  {
    hide Under;
  }

  lemma SiftEnd(buf: seq<byte>, r0: seq<nat>, r: seq<nat>, i: nat, j: nat, q: nat, x: nat)
    requires 1 <= i <= j <= |r0| && Sift(buf, r0, r, i, j, q, x) && Covers(buf, r, j, q, x)
    requires q == i || Le(buf, x, At(r, q / 2))
    ensures var r' := Put(r, q, x);
            Heap(buf, r', i, j) && Good(buf, r', j, x) && multiset(r') == multiset(Put(r0, i, x))
            && forall c :: j < c <= |r0| ==> At(r', c) == At(r0, c)
  {
    hide Good, Covers, Le, HeapBut;
    Fill(buf, r, i, j, q, x);
    GoodReads(buf, r, j, x);
    GoodPut(buf, r, j, x, q, x);
  }

  lemma GoodReads(buf: seq<byte>, r: seq<nat>, j: nat, x: nat)
    requires j <= |r| && Good(buf, r, j, x)
    ensures Readable(buf, x) && BelowTail(buf, r, j, x)
  {
  }

  /** A node with both children: the test of line 891 picks the larger. */
  lemma Larger(buf: seq<byte>, r: seq<nat>, j: nat, q: nat, less: bool)
    requires 1 <= q && 2 * q < j <= |r| && (less <==> !Le(buf, At(r, 2 * q), At(r, 2 * q + 1)))
    requires less ==> Le(buf, At(r, 2 * q + 1), At(r, 2 * q))
    ensures var p := if less then 2 * q else 2 * q + 1; p / 2 == q && Covers(buf, r, j, q, At(r, p))
  {
    hide Le;
    LeRefl(buf, At(r, 2 * q));
    LeRefl(buf, At(r, 2 * q + 1));
    var x := if less then At(r, 2 * q) else At(r, 2 * q + 1);
    forall c | 2 * q <= c <= 2 * q + 1 && c <= j ensures Le(buf, At(r, c), x) {
      assert c == 2 * q || c == 2 * q + 1;
    }
  }

  lemma OnlyChild(buf: seq<byte>, r: seq<nat>, j: nat, q: nat)
    requires 1 <= q && 2 * q == j <= |r|
    ensures Covers(buf, r, j, q, At(r, j))
  {
    hide Le;
    LeRefl(buf, At(r, j));
  }

  /** Lines 889-900: `x` is sifted in at node `i`: down along the larger children to a leaf, then up again. */
  method SiftIn(buf: seq<byte>, a: array<nat>, i: nat, j: nat, x: nat)
    requires 1 <= i <= j <= a.Length && HeapBut(buf, a[..], i, j, i) && Good(buf, a[..], j, x)
    modifies a
    ensures Heap(buf, a[..], i, j) && Good(buf, a[..], j, x)
    ensures multiset(a[..]) == multiset(Put(old(a[..]), i, x))
    ensures forall c :: j < c <= a.Length ==> At(a[..], c) == old(At(a[..], c))
  {
    hide Sift, Good, HeapBut, Covers;
    ghost var r0 := a[..];
    SiftStart(buf, r0, i, j, x);
    var q := Sink(buf, a, r0, i, j, x);
    q := Rise(buf, a, r0, i, j, q, x);
    ghost var r := a[..];
    SiftEnd(buf, r0, r, i, j, q, x);
    a[q - 1] := x;
    assert a[..] == Put(r, q, x);
  }

  method Move(a: array<nat>, q: nat, p: nat)
    requires 1 <= q <= a.Length && 1 <= p <= a.Length
    modifies a
    ensures a[..] == Put(old(a[..]), q, At(old(a[..]), p))
  {
    a[q - 1] := a[p - 1];
  }

  /** A child moves up into the hole, and the hole down to the child. */
  method Lift(buf: seq<byte>, a: array<nat>, ghost r0: seq<nat>, ghost i: nat, ghost j: nat, q: nat, ghost x: nat,
              p: nat)
    requires 1 <= i <= j <= |r0| == a.Length && Sift(buf, r0, a[..], i, j, q, x)
    requires 1 <= q < p <= j && p / 2 == q && Covers(buf, a[..], j, q, At(a[..], p))
    modifies a
    ensures Sift(buf, r0, a[..], i, j, p, x)
  {
    hide Sift, Covers, Put;
    SiftDown(buf, r0, a[..], i, j, q, x, p);
    Move(a, q, p);
  }

  /** Lines 889-896: the hole moves down to a leaf. */
  method Sink(buf: seq<byte>, a: array<nat>, ghost r0: seq<nat>, i: nat, j: nat, ghost x: nat) returns (q: nat)
    requires 1 <= i <= j <= |r0| == a.Length && Sift(buf, r0, a[..], i, j, i, x)
    modifies a
    ensures i <= q <= j && Sift(buf, r0, a[..], i, j, q, x) && Covers(buf, a[..], j, q, x)
  {
    hide Sift, Covers, Le, Put;
    var p: nat;
    q, p := i, 2 * i;
    while p < j
      invariant p == 2 * q && Sift(buf, r0, a[..], i, j, q, x) && i <= q <= j
      decreases j - q
    {
      ghost var r := a[..];
      SiftReads(buf, r0, r, i, j, q, x, p);
      SiftReads(buf, r0, r, i, j, q, x, p + 1);
      var less := Smaller(buf, a[p], a[p - 1]);
      Larger(buf, r, j, q, less);
      if !less { p := p + 1; }
      Lift(buf, a, r0, i, j, q, x, p);
      q := p;
      p := 2 * q;
    }
    if p == j {
      OnlyChild(buf, a[..], j, q);
      Lift(buf, a, r0, i, j, q, x, p);
      q := p;
    }
    Leaf(buf, a[..], j, q, x);
  }

  /** Lines 897-899: the hole moves up past smaller parents. */
  method Rise(buf: seq<byte>, a: array<nat>, ghost r0: seq<nat>, i: nat, j: nat, leaf: nat, x: nat) returns (q: nat)
    requires 1 <= i <= j <= |r0| == a.Length && i <= leaf <= j && Sift(buf, r0, a[..], i, j, leaf, x)
             && Covers(buf, a[..], j, leaf, x)
    modifies a
    ensures i <= q <= j && Sift(buf, r0, a[..], i, j, q, x) && Covers(buf, a[..], j, q, x)
    ensures q == i || Le(buf, x, At(a[..], q / 2))
  {
    hide Sift, Covers, Le;
    ghost var r := a[..];
    q := leaf;
    while q > i
      invariant a[..] == r && i <= q <= j && Sift(buf, r0, r, i, j, q, x) && Covers(buf, r, j, q, x)
    {
      var p := q / 2;
      SiftParent(buf, r0, r, i, j, q, x);
      SiftReads(buf, r0, r, i, j, q, x, p);
      var less := Smaller(buf, a[p - 1], x);
      if !less { return; }
      SiftUp(buf, r0, r, i, j, q, x);
      Move(a, q, p);
      r := Put(r, q, At(r, p));
      q := p;
    }
  }

  lemma SiftStart(buf: seq<byte>, r: seq<nat>, i: nat, j: nat, x: nat)
    requires 1 <= i <= j <= |r| && HeapBut(buf, r, i, j, i) && Good(buf, r, j, x)
    ensures Sift(buf, r, r, i, j, i, x)
  {
  }

  lemma SiftReads(buf: seq<byte>, r0: seq<nat>, r: seq<nat>, i: nat, j: nat, q: nat, x: nat, c: nat)
    requires 1 <= i <= j <= |r0| && Sift(buf, r0, r, i, j, q, x) && 1 <= c <= j
    ensures |r| == |r0| && Readable(buf, At(r, c)) && Readable(buf, x)
  {
  }

  lemma SiftParent(buf: seq<byte>, r0: seq<nat>, r: seq<nat>, i: nat, j: nat, q: nat, x: nat)
    requires 1 <= i <= j <= |r0| && Sift(buf, r0, r, i, j, q, x) && q > i
    ensures q >= 2 * i
  {
  }

  lemma Leaf(buf: seq<byte>, r: seq<nat>, j: nat, q: nat, x: nat)
    requires 1 <= q && 2 * q > j && j <= |r|
    ensures Covers(buf, r, j, q, x)
  {
  }

  /** Between sifts: a heap from `i` to `j`, not above the sorted elements after `j`. */
  ghost predicate Sorting(buf: seq<byte>, r: seq<nat>, i: nat, j: nat)
  {
    && 1 <= i <= j <= |r| && (j < |r| ==> i == 1)
    && Heap(buf, r, i, j) && AllReadable(buf, r) && AllBelow(buf, r, j) && SortedFrom(buf, r, j)
  }

  lemma SortStart(buf: seq<byte>, r: seq<nat>)
    requires |r| > 0 && AllReadable(buf, r)
    ensures Sorting(buf, r, |r|, |r|)
  {
  }

  /** Line 886: the next node up joins the heap. */
  lemma Grow(buf: seq<byte>, r: seq<nat>, i: nat, j: nat)
    requires Sorting(buf, r, i, j) && i > 1
    ensures HeapBut(buf, r, i - 1, j, i - 1) && Good(buf, r, j, At(r, i - 1)) && Put(r, i - 1, At(r, i - 1)) == r
  {
    hide Le, Readable;
    forall c | 2 * (i - 1) <= c <= j && c / 2 != i - 1 ensures Under(buf, r, c) {
      assert c / 2 >= i;
    }
  }

  /** Line 887: the largest element of the heap goes to its place, and the last one is to be sifted in. */
  lemma Extract(buf: seq<byte>, r: seq<nat>, j: nat)
    requires Sorting(buf, r, 1, j) && j > 1
    ensures var r' := Put(r, j, At(r, 1));
            HeapBut(buf, r', 1, j - 1, 1) && Good(buf, r', j - 1, At(r, j)) && SortedFrom(buf, r', j - 1)
            && multiset(Put(r', 1, At(r, j))) == multiset(r)
  {
    hide Le, Readable;
    var r' := Put(r, j, At(r, 1));
    forall c | 2 <= c <= j - 1 && c / 2 != 1 ensures Under(buf, r', c) { assert Under(buf, r, c); }
    forall c | 1 <= c <= j ensures BelowTail(buf, r', j - 1, At(r, c)) {
      ExtractBelow(buf, r, j, c);
    }
    ExtractSorted(buf, r, j);
    assert AllReadable(buf, r');
    Moves(r, j, 1, At(r, j));
    assert Put(r, j, At(r, j)) == r;
  }

  lemma ExtractBelow(buf: seq<byte>, r: seq<nat>, j: nat, c: nat)
    requires Sorting(buf, r, 1, j) && j > 1 && 1 <= c <= j
    ensures BelowTail(buf, Put(r, j, At(r, 1)), j - 1, At(r, c))
  {
    hide Le, HeapBut;
    Root(buf, r, j, c);
    assert BelowTail(buf, r, j, At(r, c));
    var r' := Put(r, j, At(r, 1));
    forall d | j - 1 < d <= |r'| ensures Le(buf, At(r, c), At(r', d)) {
      if d != j { assert Le(buf, At(r, c), At(r, d)); }
    }
  }

  lemma ExtractSorted(buf: seq<byte>, r: seq<nat>, j: nat)
    requires Sorting(buf, r, 1, j) && j > 1
    ensures SortedFrom(buf, Put(r, j, At(r, 1)), j - 1)
  {
    hide Le, HeapBut;
    var r' := Put(r, j, At(r, 1));
    assert BelowTail(buf, r, j, At(r, 1));
    assert SortedFrom(buf, r, j);
    forall c | j - 1 < c <= |r'| ensures BelowTail(buf, r', c, At(r', c)) {
      forall d | c < d <= |r'| ensures Le(buf, At(r', c), At(r', d)) {
        assert c > j ==> BelowTail(buf, r, c, At(r, c));
      }
    }
  }

  lemma SortedStays(buf: seq<byte>, r: seq<nat>, r': seq<nat>, j: nat)
    requires SortedFrom(buf, r, j) && |r'| == |r| && forall c :: j < c <= |r| ==> At(r', c) == At(r, c)
    ensures SortedFrom(buf, r', j)
  {
    hide Le;
    forall c | j < c <= |r'| && c >= 1 ensures BelowTail(buf, r', c, At(r', c)) {
      assert BelowTail(buf, r, c, At(r, c));
      forall d | c < d <= |r'| ensures Le(buf, At(r', c), At(r', d)) { assert Le(buf, At(r, c), At(r, d)); }
    }
  }

  /** Lines 884-901. The positions are permuted, and no record is before an earlier one. */
  method Sort(buf: seq<byte>, a: array<nat>)
    requires AllReadable(buf, a[..])
    modifies a
    ensures multiset(a[..]) == multiset(old(a[..]))
    ensures AllReadable(buf, a[..]) && SortedFrom(buf, a[..], 0)
  {
    hide HeapBut, Heap, AllBelow, SortedFrom, Le;
    var i: nat, j: nat := a.Length, a.Length;
    if a.Length > 0 { SortStart(buf, a[..]); }
    while j > 1
      invariant a.Length > 0 ==> Sorting(buf, a[..], i, j)
      invariant a.Length == 0 ==> j == 0
      invariant multiset(a[..]) == multiset(old(a[..]))
      decreases j, i
    {
      ghost var r := a[..];
      if i > 1 {
        Grow(buf, r, i, j);
        i := i - 1;
        var pos := a[i - 1];
        SiftIn(buf, a, i, j, pos);
        SortStep(buf, r, a[..], i, j, pos);
      } else {
        Extract(buf, r, j);
        var pos := a[j - 1];
        a[j - 1] := a[i - 1];
        j := j - 1;
        ghost var r' := a[..];
        assert r' == Put(r, j + 1, At(r, 1));
        SiftIn(buf, a, i, j, pos);
        SortStep(buf, r', a[..], i, j, pos);
      }
    }
    SortEnd(buf, a[..], i, j);
  }

  lemma SortStep(buf: seq<byte>, r: seq<nat>, r': seq<nat>, i: nat, j: nat, x: nat)
    requires 1 <= i <= j <= |r| == |r'| && (j < |r| ==> i == 1)
    requires Heap(buf, r', i, j) && Good(buf, r', j, x) && SortedFrom(buf, r, j)
             && forall c :: j < c <= |r| ==> At(r', c) == At(r, c)
    ensures Sorting(buf, r', i, j)
  {
    hide HeapBut, AllBelow, SortedFrom;
    SortedStays(buf, r, r', j);
  }

  lemma SortEnd(buf: seq<byte>, r: seq<nat>, i: nat, j: nat)
    requires |r| > 0 ==> j <= 1 && Sorting(buf, r, i, j)
    ensures AllReadable(buf, r) && SortedFrom(buf, r, 0)
  {
    hide Le;
    forall c | 0 < c <= |r| ensures BelowTail(buf, r, c, At(r, c)) {
      assert Sorting(buf, r, i, j);
    }
  }

  // ----- sets of records

  /** The same owner name up to case, type and class. */
  ghost predicate SameSet(buf: seq<byte>, x: nat, y: nat)
  {
    ViewAt(buf, x).head == ViewAt(buf, y).head && ViewAt(buf, x).name == ViewAt(buf, y).name
  }

  ghost predicate Internet(buf: seq<byte>, x: nat) { ViewAt(buf, x).head[2..] == [0, 1] }

  /** What lies between two records of a set belongs to the set. */
  lemma Between(a: View, b: View, c: View)
    requires |a.head| == |b.head| && !Before(b, a) && !Before(c, b) && a.head == c.head && a.name == c.name
    ensures b.head == a.head && b.name == a.name
  {
    hide LexLess;
    if b.head != a.head {
      LexTotal(a.head, b.head, 0);
    } else if |a.name| == |b.name| && b.name != a.name {
      LexTotal(a.name, b.name, 0);
    }
  }

  /** The records `i..j` are exactly those of the set of record `i`. */
  ghost predicate IsSet(buf: seq<byte>, r: seq<nat>, i: nat, j: nat)
  {
    && i < j <= |r|
    && (forall m :: i <= m < j ==> SameSet(buf, r[i], r[m]))
    && (forall m :: 0 <= m < i || j <= m < |r| ==> !SameSet(buf, r[i], r[m]))
  }

  lemma SortedBetween(buf: seq<byte>, r: seq<nat>, a: nat, b: nat, c: nat)
    requires SortedFrom(buf, r, 0) && a <= b <= c < |r| && SameSet(buf, r[a], r[c])
    ensures SameSet(buf, r[a], r[b])
  {
    hide Before, ViewAt;
    if a < b < c {
      assert BelowTail(buf, r, a + 1, At(r, a + 1));
      assert Le(buf, At(r, a + 1), At(r, b + 1));
      assert BelowTail(buf, r, b + 1, At(r, b + 1));
      assert Le(buf, At(r, b + 1), At(r, c + 1));
      Between(ViewAt(buf, r[a]), ViewAt(buf, r[b]), ViewAt(buf, r[c]));
    }
  }

  lemma WholeSet(buf: seq<byte>, r: seq<nat>, i: nat, j: nat)
    requires SortedFrom(buf, r, 0) && i < j <= |r| && (i == 0 || !SameSet(buf, r[i - 1], r[i]))
    requires (forall m :: i <= m < j ==> SameSet(buf, r[i], r[m])) && (j == |r| || !SameSet(buf, r[i], r[j]))
    ensures IsSet(buf, r, i, j)
  {
    hide SortedFrom, ViewAt;
    forall m | 0 <= m < i || j <= m < |r| ensures !SameSet(buf, r[i], r[m]) {
      if SameSet(buf, r[i], r[m]) {
        if m < i { SortedBetween(buf, r, m, i - 1, i); } else { SortedBetween(buf, r, i, j, m); }
      }
    }
  }

  /** Lines 907-909 and 915-916: the owner name and the ten bytes of a record. */
  method ReadRecord(buf: seq<byte>, pos: nat) returns (ok: bool, t: seq<byte>, header: seq<byte>, data: nat)
    ensures ok <==> Readable(buf, pos)
    ensures ok ==> IsName(t) && |t| <= 255 && t == NameAt(buf, pos) && data == SkipName(buf, pos) + 10 <= |buf|
    ensures ok ==> header == buf[data - 10..data] && ViewAt(buf, pos) == View(header[..4], Lower(t), data - 10)
  {
    hide SkipName, Lower;
    var p;
    p, t := NameHere(buf, pos);
    header, data := [], 0;
    if p == 0 { return false, t, header, 0; }
    data, header := Copy(buf, p, 10);
    ok := data != 0;
    if ok { ViewIs(buf, pos, header); }
  }

  /** Lines 907-920: the set of record `i`, unless its class is not IN. */
  method NextSet(buf: seq<byte>, r: seq<nat>, i: nat) returns (internet: bool, t1: seq<byte>, header: seq<byte>, j: nat)
    requires i < |r| && AllReadable(buf, r) && SortedFrom(buf, r, 0)
    requires Internet(buf, r[i]) ==> i == 0 || !SameSet(buf, r[i - 1], r[i])
    ensures internet <==> Internet(buf, r[i])
    ensures i < j <= |r| && if internet then IsSet(buf, r, i, j) else j == i + 1
    ensures IsName(t1) && |t1| <= 255 && t1 == NameAt(buf, r[i]) && |header| == 10
            && ViewAt(buf, r[i]).head == header[..4]
    ensures SkipName(buf, r[i]) + 10 <= |buf| && header == buf[SkipName(buf, r[i])..SkipName(buf, r[i]) + 10]
  {
    hide SortedFrom, ViewAt, Lower, Readable, IsSet, SkipName;
    var ok, data;
    assert Readable(buf, At(r, i + 1));
    ok, t1, header, data := ReadRecord(buf, r[i]);
    assert header[..4][2..] == header[2..4];
    j := i + 1;
    internet := header[2..4] == [0, 1];
    if !internet { return; }
    while j < |r|
      invariant i < j <= |r| && forall m :: i <= m < j ==> SameSet(buf, r[i], r[m])
    {
      assert Readable(buf, At(r, j + 1));
      var ok2, t2, h2, data2 := ReadRecord(buf, r[j]);
      HeadParts(header, h2);
      if !Equal(t1, t2) || h2[..2] != header[..2] || h2[2..4] != [0, 1] {
        break;
      }
      j := j + 1;
    }
    WholeSet(buf, r, i, j);
  }

  lemma HeadParts(h: seq<byte>, g: seq<byte>)
    requires |h| >= 4 && |g| >= 4
    ensures h[..4] == g[..4] <==> h[..2] == g[..2] && h[2..4] == g[2..4]
  {
    assert h[..4] == h[..2] + h[2..4] && g[..4] == g[..2] + g[2..4];
    assert h[..2] == h[..4][..2] && h[2..4] == h[..4][2..4] && g[..2] == g[..4][..2] && g[2..4] == g[..4][2..4];
  }

  /** The sets taken so far are whole sets of class IN, in order, and hold every record of class IN before `i`. */
  ghost predicate Taken(buf: seq<byte>, r: seq<nat>, sets: seq<(nat, nat)>, i: nat)
    requires i <= |r|
  {
    && (forall g :: 0 <= g < |sets| ==> sets[g].0 < sets[g].1 <= i && Internet(buf, r[sets[g].0])
                                        && IsSet(buf, r, sets[g].0, sets[g].1))
    && (forall g, h :: 0 <= g < h < |sets| ==> sets[g].1 <= sets[h].0)
    && (forall m :: 0 <= m < i && Internet(buf, r[m]) ==> Holds(sets, m))
  }

  ghost predicate Holds(sets: seq<(nat, nat)>, m: nat)
  {
    exists g :: 0 <= g < |sets| && sets[g].0 <= m < sets[g].1
  }

  lemma TakenNext(buf: seq<byte>, r: seq<nat>, sets: seq<(nat, nat)>, i: nat, j: nat)
    requires i < j <= |r| && Taken(buf, r, sets, i) && Internet(buf, r[i]) && IsSet(buf, r, i, j)
    ensures Taken(buf, r, sets + [(i, j)], j)
  {
    hide Internet, IsSet;
    var sets' := sets + [(i, j)];
    forall m | 0 <= m < j && Internet(buf, r[m]) ensures Holds(sets', m) {
      if m < i {
        assert Holds(sets, m);
        var g :| 0 <= g < |sets| && sets[g].0 <= m < sets[g].1;
        assert sets'[g] == sets[g];
      } else {
        assert sets'[|sets|] == (i, j);
      }
    }
  }

  lemma TakenNone(buf: seq<byte>, r: seq<nat>)
    ensures Taken(buf, r, [], 0)
  {
  }

  lemma TakenSkip(buf: seq<byte>, r: seq<nat>, sets: seq<(nat, nat)>, i: nat)
    requires i < |r| && Taken(buf, r, sets, i) && !Internet(buf, r[i])
    ensures Taken(buf, r, sets, i + 1)
  {
    hide Internet, IsSet;
  }

  lemma NextStart(buf: seq<byte>, r: seq<nat>, i: nat, j: nat, internet: bool)
    requires i < |r| && (internet <==> Internet(buf, r[i])) && if internet then IsSet(buf, r, i, j) else j == i + 1
    ensures i < j <= |r| && (j < |r| && Internet(buf, r[j]) ==> !SameSet(buf, r[j - 1], r[j]))
  {
    if j < |r| && internet {
      assert SameSet(buf, r[i], r[j - 1]) && !SameSet(buf, r[i], r[j]);
    }
  }
}
