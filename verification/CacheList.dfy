/**
The bucket lists of `cache.c` as they follow from the queue of entries: for each entry the
positions of its neighbours in its bucket, newest first, whose exclusive or is the link the
buffer stores (`cache.c`, lines 48-53).
*/
module CacheList {
  import opened Bits

  /** `expire` is the absolute second the entry expires at, stored in seven bytes. */
  datatype Entry = Entry(key: seq<byte>, data: seq<byte>, expire: nat, flags: byte)

  /** An entry, the position of its link in the buffer and the position of the head link of its bucket. */
  datatype Placed = Placed(pos: nat, bucket: nat, e: Entry)

  function Len(e: Entry): nat { 20 + |e.key| + |e.data| }

  function Size(p: Placed): nat { Len(p.e) }

  /** The position of the newest entry of bucket `b` in the queue `q`, oldest first; 0 if there is none. */
  function Newest(q: seq<Placed>, b: nat): nat
  {
    if q == [] then 0
    else if q[|q| - 1].bucket == b then q[|q| - 1].pos
    else Newest(q[..|q| - 1], b)
  }

  /** The position of the oldest entry of bucket `b`; the head link if there is none. */
  function Oldest(q: seq<Placed>, b: nat): nat
  {
    if q == [] then b
    else if q[0].bucket == b then q[0].pos
    else Oldest(q[1..], b)
  }

  /** The neighbours of entry `i` in its bucket and the link that encodes them. */
  function NewerOf(q: seq<Placed>, i: nat): nat
    requires i < |q|
  {
    Oldest(q[i + 1..], q[i].bucket)
  }

  function OlderOf(q: seq<Placed>, i: nat): nat
    requires i < |q|
  {
    Newest(q[..i], q[i].bucket)
  }

  function Link(q: seq<Placed>, i: nat): nat
    requires i < |q|
  {
    Xor(NewerOf(q, i), OlderOf(q, i))
  }

  ghost predicate Positive(q: seq<Placed>) { forall i :: 0 <= i < |q| ==> q[i].pos > 0 }

  ghost predicate NoneIn(q: seq<Placed>, b: nat) { forall i :: 0 <= i < |q| ==> q[i].bucket != b }

  lemma {:induction false} NewestNone(q: seq<Placed>, b: nat)
    requires Positive(q)
    ensures Newest(q, b) == 0 <==> NoneIn(q, b)
  {
    if q != [] {
      var n := |q| - 1;
      if q[n].bucket != b {
        NewestNone(q[..n], b);
        if NoneIn(q[..n], b) {
          forall i | 0 <= i < |q| ensures q[i].bucket != b {
            if i < n { assert q[..n][i] == q[i]; }
          }
        }
      }
    }
  }

  /** The index of the newest entry of a bucket. */
  lemma {:induction false} NewestIndex(q: seq<Placed>, b: nat) returns (j: nat)
    requires Newest(q, b) != 0
    ensures j < |q| && q[j].bucket == b && q[j].pos == Newest(q, b) && NoneIn(q[j + 1..], b)
  {
    var n := |q| - 1;
    if q[n].bucket == b {
      j := n;
    } else {
      j := NewestIndex(q[..n], b);
      var rest := q[j + 1..];
      forall i | 0 <= i < |rest| ensures rest[i].bucket != b {
        if j + 1 + i < n { assert q[..n][j + 1..][i] == rest[i]; }
      }
    }
  }

  lemma {:induction false} OldestNone(q: seq<Placed>, b: nat)
    requires NoneIn(q, b)
    ensures Oldest(q, b) == b
  {
    if q != [] { OldestNone(q[1..], b); }
  }

  lemma {:induction false} OldestIndex(q: seq<Placed>, b: nat) returns (j: nat)
    requires !NoneIn(q, b)
    ensures j < |q| && q[j].bucket == b && q[j].pos == Oldest(q, b) && NoneIn(q[..j], b)
  {
    if q[0].bucket == b {
      j := 0;
    } else {
      j := OldestIndex(q[1..], b);
      j := j + 1;
      forall i | 0 <= i < |q[..j]| ensures q[..j][i].bucket != b {
        if i > 0 { assert q[1..][..j - 1][i - 1] == q[i]; }
      }
    }
  }

  /** Entries of other buckets at the new end do not change the newest entry. */
  lemma {:induction false} NewestSkip(q: seq<Placed>, n: nat, b: nat)
    requires n <= |q| && NoneIn(q[n..], b)
    ensures Newest(q, b) == Newest(q[..n], b)
    decreases |q|
  {
    if n < |q| {
      var l := |q| - 1;
      assert q[n..][l - n] == q[l];
      assert NoneIn(q[..l][n..], b) by {
        forall i | 0 <= i < |q[..l][n..]| ensures q[..l][n..][i].bucket != b { assert q[..l][n..][i] == q[n..][i]; }
      }
      NewestSkip(q[..l], n, b);
      assert q[..l][..n] == q[..n];
    } else {
      assert q[..n] == q;
    }
  }

  /** Entries of other buckets at the old end do not change the oldest entry. */
  lemma {:induction false} OldestSkip(q: seq<Placed>, n: nat, b: nat)
    requires n <= |q| && NoneIn(q[..n], b)
    ensures Oldest(q, b) == Oldest(q[n..], b)
    decreases n
  {
    if n > 0 {
      assert q[..n][0] == q[0];
      assert NoneIn(q[1..][..n - 1], b) by {
        var rest := q[1..][..n - 1];
        forall i | 0 <= i < |rest| ensures rest[i].bucket != b { assert rest[i] == q[..n][i + 1]; }
      }
      OldestSkip(q[1..], n - 1, b);
      assert q[1..][n - 1..] == q[n..];
    } else {
      assert q[0..] == q;
    }
  }

  // ----- removing the oldest entry of the queue

  /** The oldest entry of the queue is the last of its bucket, so its link is the position of its one neighbour. */
  lemma OldestLink(q: seq<Placed>)
    requires q != []
    ensures Link(q, 0) == Oldest(q[1..], q[0].bucket)
  {
    assert q[..0] == [];
  }

  lemma {:induction false} NewestDropFirst(q: seq<Placed>, b: nat)
    requires q != [] && Positive(q)
    ensures Newest(q, b) == if q[0].bucket == b && NoneIn(q[1..], b) then q[0].pos else Newest(q[1..], b)
  {
    if NoneIn(q[1..], b) {
      NewestSkip(q, 1, b);
      assert q[..1] == [q[0]] && q[..1][..0] == [];
      assert Positive(q[1..]);
      NewestNone(q[1..], b);
    } else {
      assert Positive(q[1..]);
      NewestNone(q[1..], b);
      var j := NewestIndex(q[1..], b);
      assert NoneIn(q[j + 2..], b) by { assert q[1..][j + 1..] == q[j + 2..]; }
      NewestSkip(q, j + 2, b);
      assert q[..j + 2][|q[..j + 2]| - 1] == q[j + 1] == q[1..][j];
    }
  }

  /**
  What removing the oldest entry does to the link of another entry: only the neighbour of the removed one
  changes.
  */
  lemma LinkDropFirst(q: seq<Placed>, i: nat)
    requires 1 <= i < |q| && Positive(q)
    ensures NewerOf(q[1..], i - 1) == NewerOf(q, i)
    ensures OlderOf(q, i) == if q[0].bucket == q[i].bucket && NoneIn(q[1..i], q[i].bucket) then q[0].pos
                             else OlderOf(q[1..], i - 1)
    ensures q[0].bucket == q[i].bucket && NoneIn(q[1..i], q[i].bucket) ==> OlderOf(q[1..], i - 1) == 0
  {
    assert q[1..][i - 1 + 1..] == q[i + 1..];
    var b := q[i].bucket;
    NewestDropFirst(q[..i], b);
    assert q[..i][1..] == q[1..i] == q[1..][..i - 1];
    assert Positive(q[1..i]);
    NewestNone(q[1..i], b);
  }

  // ----- appending an entry

  lemma NewestAppend(q: seq<Placed>, p: Placed, b: nat)
    ensures Newest(q + [p], b) == if p.bucket == b then p.pos else Newest(q, b)
  {
    assert (q + [p])[..|q|] == q;
  }

  lemma {:induction false} OldestAppend(q: seq<Placed>, p: Placed, b: nat)
    ensures Oldest(q + [p], b) == if NoneIn(q, b) && p.bucket == b then p.pos else Oldest(q, b)
  {
    if q == [] {
      assert q + [p] == [p] && [p][1..] == [];
    } else {
      assert (q + [p])[1..] == q[1..] + [p];
      OldestAppend(q[1..], p, b);
      if q[0].bucket != b {
        assert NoneIn(q, b) <==> NoneIn(q[1..], b) by {
          if NoneIn(q[1..], b) {
            forall i | 0 <= i < |q| ensures q[i].bucket != b { if i > 0 { assert q[1..][i - 1] == q[i]; } }
          }
        }
      }
    }
  }

  /** What appending an entry does to the link of an older one: only the newest of the bucket changes. */
  lemma LinkAppend(q: seq<Placed>, p: Placed, i: nat)
    requires i < |q|
    ensures OlderOf(q + [p], i) == OlderOf(q, i)
    ensures NewerOf(q + [p], i)
            == if NoneIn(q[i + 1..], q[i].bucket) && p.bucket == q[i].bucket then p.pos else NewerOf(q, i)
  {
    assert (q + [p])[..i] == q[..i];
    assert (q + [p])[i + 1..] == q[i + 1..] + [p];
    OldestAppend(q[i + 1..], p, q[i].bucket);
  }

  lemma LinkLast(q: seq<Placed>, p: Placed)
    ensures Link(q + [p], |q|) == Xor(p.bucket, Newest(q, p.bucket))
  {
    assert (q + [p])[..|q|] == q;
    assert (q + [p])[|q| + 1..] == [];
  }
}
