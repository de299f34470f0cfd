/**
The query name of the TXT form of DNSCurve: the client (`dq/dns_transmit.c`, `dq/dns_base32.c`)
writes nonce, box and public key in labels, in place over the bytes it encodes; the server
(`curvedns/dnscurve.c`, `curvedns/misc.c`) reads them back.
*/
module CurveName {
  import opened Bits
  import opened Bytes
  import opened Names
  import opened Base32
  import opened Wrappers

  /** The size of `n` characters in labels of at most 50. */
  function WireSize(n: nat): nat { n + (n + 49) / 50 }

  /** `dns_base32_bytessize`, lines 6-11. */
  function BytesSize(len: int): nat { if len < 0 then 0 else WireSize(Needed(len)) }

  /** Where character `t` is. */
  function Place(t: nat): nat { t + t / 50 + 1 }

  /** `w` is the text `c` in labels of 50 characters, the last one shorter. */
  ghost predicate IsWire(w: seq<byte>, c: seq<byte>)
  {
    && |w| == WireSize(|c|)
    && (forall t :: 0 <= t < |c| ==> Place(t) < |w| && w[Place(t)] == c[t])
    && forall g :: 0 <= g < (|c| + 49) / 50 ==> LabelAt(w, g, if |c| - 50 * g < 50 then |c| - 50 * g else 50)
  }

  ghost predicate LabelAt(w: seq<byte>, g: nat, n: int) { 51 * g < |w| && w[51 * g] == n }

  // ----- encoding in place

  /** The digits written so far from `out` on, and the lengths of the labels that are full. */
  ghost predicate Written(b: seq<byte>, out: nat, ds: seq<digit>)
  {
    && (forall t :: 0 <= t < |ds| ==> out + Place(t) < |b| && b[out + Place(t)] == Letter(ds[t]))
    && forall g :: 0 <= g < |ds| / 50 ==> FullAt(b, out, g)
  }

  ghost predicate FullAt(b: seq<byte>, out: nat, g: nat) { out + 51 * g < |b| && b[out + 51 * g] == 50 }

  lemma WrittenNext(b: seq<byte>, b': seq<byte>, out: nat, ds: seq<digit>, d: digit)
    requires Written(b, out, ds) && |b'| == |b| && out + Place(|ds|) < |b|
    requires b'[out + Place(|ds|)] == Letter(d)
    requires forall y :: 0 <= y < |b| && y != out + Place(|ds|) && y != out + 51 * (|ds| / 50) ==> b'[y] == b[y]
    requires |ds| % 50 == 49 ==> b'[out + 51 * (|ds| / 50)] == 50
    ensures Written(b', out, ds + [d])
  {
    var n := |ds|;
    var ds' := ds + [d];
    forall t | 0 <= t < |ds'| ensures out + Place(t) < |b'| && b'[out + Place(t)] == Letter(ds'[t]) {
      if t < n {
        assert out + Place(t) < |b| && b[out + Place(t)] == Letter(ds[t]);
        PlaceApart(t, n);
      }
    }
    forall g | 0 <= g < |ds'| / 50 ensures FullAt(b', out, g) {
      if g < n / 50 {
        assert FullAt(b, out, g);
        assert 51 * g < 51 * (n / 50) < Place(n);
      }
    }
  }

  /** Places of characters differ, and are not places of lengths. */
  lemma PlaceApart(t: nat, n: nat)
    requires t < n
    ensures Place(t) < Place(n) && Place(t) != 51 * (n / 50)
  {
    var g, h := t / 50, n / 50;
    assert Place(t) == 51 * g + t % 50 + 1;
  }

  /** Lines 24-31 of `dns_base32_encodebytes`: a digit, and the length of its label if that is full. */
  method PutDigit(buf: array<byte>, o: nat, x: nat, d: digit, ghost out: nat, ghost ds: seq<digit>)
    returns (o': nat, x': nat)
    requires o == out + 51 * (|ds| / 50) && x == |ds| % 50 && out + Place(|ds|) < buf.Length
             && Written(buf[..], out, ds)
    modifies buf
    ensures Written(buf[..], out, ds + [d]) && o' == out + 51 * ((|ds| + 1) / 50) && x' == (|ds| + 1) % 50
    ensures forall y :: 0 <= y < buf.Length && (y < out || y > out + Place(|ds|)) ==> buf[y] == old(buf[y])
  {
    ghost var b := buf[..];
    assert o + x + 1 == out + Place(|ds|);
    o', x' := o, x + 1;
    buf[o' + x'] := Letter(d);
    if x' == 50 {
      buf[o'] := 50;
      o' := o' + 51;
      x' := 0;
    }
    WrittenNext(b, buf[..], out, ds, d);
  }

  /** The input of the encoder, read up to byte `i`: what is unread is still there. */
  ghost predicate Unread(b: seq<byte>, at: nat, s: seq<byte>, i: nat)
  {
    i <= |s| && at + |s| <= |b| && forall u :: i <= u < |s| ==> b[at + u] == s[u]
  }

  lemma UnreadInside(b: seq<byte>, at: nat, s: seq<byte>, i: nat)
    requires Unread(b, at, s, i)
    ensures at + |s| <= |b|
  {
  }

  /** The digits of the input: those written, then those of the bits in hand and of the bytes unread. */
  ghost predicate Encoding(s: seq<byte>, i: nat, v: nat, vbits: nat, ds: seq<digit>)
  {
    && i <= |s| && 8 * i == 5 * |ds| + vbits && |ds| <= Needed(|s|) && v < Pow2(vbits)
    && Digits(Le(s), Needed(|s|)) == ds + Digits(Left(v, vbits, s[i..]), Needed(|s|) - |ds|)
  }

  lemma EncodingStart(s: seq<byte>)
    ensures Encoding(s, 0, 0, 0, [])
  {
    assert s[0..] == s;
    assert Left(0, 0, s) == Le(s);
  }

  lemma EncodingByte(s: seq<byte>, i: nat, v: nat, vbits: nat, ds: seq<digit>)
    requires Encoding(s, i, v, vbits, ds) && i < |s|
    ensures var v' := Or(v, Shl(s[i], vbits)); Encoding(s, i + 1, v', vbits + 8, ds)
  {
    hide Pow2, Or, Shl, Encoding, Left, Le;
    EncodingCount(s, i, v, vbits, ds);
    var t := s[i..];
    assert t[0] == s[i] && t[1..] == s[i + 1..];
    EncodingBound(s, i, v, vbits, ds);
    TakeByte(v, vbits, t);
    EncodingMore(s, i, v, vbits, ds, Or(v, Shl(s[i], vbits)));
  }

  lemma EncodingBound(s: seq<byte>, i: nat, v: nat, vbits: nat, ds: seq<digit>)
    requires Encoding(s, i, v, vbits, ds)
    ensures v < Pow2(vbits)
  {
  }

  lemma EncodingMore(s: seq<byte>, i: nat, v: nat, vbits: nat, ds: seq<digit>, v': nat)
    requires Encoding(s, i, v, vbits, ds) && i < |s| && v' < Pow2(vbits + 8)
             && Left(v', vbits + 8, s[i + 1..]) == Left(v, vbits, s[i..])
    ensures Encoding(s, i + 1, v', vbits + 8, ds)
  {
    hide Pow2, Digits, Left, Le;
  }

  lemma EncodingDigit(s: seq<byte>, i: nat, v: nat, vbits: nat, ds: seq<digit>)
    requires Encoding(s, i, v, vbits, ds) && vbits >= 5
    ensures |ds| < Needed(|s|) && Encoding(s, i, v / 32, vbits - 5, ds + [v % 32])
  {
    hide Pow2, Digits, Left;
    GiveDigit(v, vbits, s[i..], Needed(|s|) - |ds|);
    var rest := Digits(Left(v / 32, vbits - 5, s[i..]), Needed(|s|) - |ds| - 1);
    assert ds + ([v % 32] + rest) == ds + [v % 32] + rest;
  }

  lemma EncodingEnd(s: seq<byte>, v: nat, vbits: nat, ds: seq<digit>)
    requires Encoding(s, |s|, v, vbits, ds) && vbits < 5
    ensures vbits == 0 ==> ds == Digits(Le(s), Needed(|s|))
    ensures vbits > 0 ==> v < 32 && |ds| + 1 == Needed(|s|) && ds + [v] == Digits(Le(s), Needed(|s|))
  {
    hide Digits, Pow2, Left;
    assert s[|s|..] == [];
    LeftNothing(v, vbits);
    LastDigit(v, vbits);
    var k := Needed(|s|);
    assert k - |ds| == if vbits == 0 then 0 else 1;
    assert Digits(v, 0) == [];
  }

  lemma LeftNothing(v: nat, vbits: nat)
    ensures Left(v, vbits, []) == v
  {
  }

  /** What a digit overwrites has been read. */
  lemma Behind(out: nat, at: nat, n: nat, i: nat, vbits: nat, t: nat)
    requires out + BytesSize(n) <= at + n && i <= n && 8 * i == 5 * t + vbits && vbits >= 5
    ensures t < Needed(n) && Place(t) < BytesSize(n) && out + Place(t) < at + i
  {
    var k := Needed(n);
    assert 5 * k >= 8 * n;
    assert (k + 49) / 50 >= t / 50 + 1;
  }

  /** The state of the encoder: all that `dns_base32_encodebytes` keeps. */
  ghost predicate Halfway(b0: seq<byte>, b: seq<byte>, out: nat, at: nat, s: seq<byte>, i: nat, v: nat, vbits: nat,
                          ds: seq<digit>)
  {
    && |b| == |b0| && Written(b, out, ds) && Unread(b, at, s, i) && Encoding(s, i, v, vbits, ds)
    && forall y :: 0 <= y < |b0| && (y < out || y >= out + BytesSize(|s|)) ==> b[y] == b0[y]
  }

  /** One pass of the inner loop, lines 24-31. */
  method WriteDigit(buf: array<byte>, o: nat, x: nat, v: nat, vbits: nat,
                    ghost b0: seq<byte>, ghost out: nat, ghost at: nat, ghost s: seq<byte>, ghost i: nat,
                      ghost ds: seq<digit>) returns (o': nat, x': nat)
    requires Halfway(b0, buf[..], out, at, s, i, v, vbits, ds) && vbits >= 5 && out + BytesSize(|s|) <= at + |s|
    requires o == out + 51 * (|ds| / 50) && x == |ds| % 50
    modifies buf
    ensures Halfway(b0, buf[..], out, at, s, i, v / 32, vbits - 5, ds + [v % 32])
    ensures o' == out + 51 * ((|ds| + 1) / 50) && x' == (|ds| + 1) % 50
  {
    hide Written, Encoding;
    ghost var b := buf[..];
    EncodingCount(s, i, v, vbits, ds);
    Behind(out, at, |s|, i, vbits, |ds|);
    EncodingDigit(s, i, v, vbits, ds);
    o', x' := PutDigit(buf, o, x, v % 32, out, ds);
  }

  lemma EncodingCount(s: seq<byte>, i: nat, v: nat, vbits: nat, ds: seq<digit>)
    requires Encoding(s, i, v, vbits, ds)
    ensures i <= |s| && 8 * i == 5 * |ds| + vbits
  {
  }

  /**
  `dns_base32_encodebytes`, lines 13-37: the `len` bytes at `at` are written in labels from `out` on.
  The output may run over the input as long as it does not end after it.
  */
  method EncodeBytes(buf: array<byte>, out: nat, at: nat, len: nat, ghost s: seq<byte>)
    requires at + len <= buf.Length && out + BytesSize(len) <= at + len && s == buf[at..at + len]
    modifies buf
    ensures IsWire(buf[out..out + BytesSize(len)], Encoded(s))
    ensures forall y :: 0 <= y < buf.Length && (y < out || y >= out + BytesSize(len)) ==> buf[y] == old(buf[y])
  {
    hide Halfway, Shl, Or, IsWire, Encoded;
    ghost var b0 := buf[..];
    ghost var ds: seq<digit> := [];
    var o, x: nat, v: nat, vbits: nat, i := out, 0, 0, 0, 0;
    HalfwayStart(b0, out, at, s);
    while i < len
      invariant 0 <= i <= len && vbits < 5 && Halfway(b0, buf[..], out, at, s, i, v, vbits, ds)
      invariant o == out + 51 * (|ds| / 50) && x == |ds| % 50
    {
      HalfwayByte(b0, buf[..], out, at, s, i, v, vbits, ds);
      v := Or(v, Shl(buf[at + i], vbits));
      vbits := vbits + 8;
      i := i + 1;
      o, x, v, vbits, ds := WriteDigits(buf, o, x, v, vbits, b0, out, at, s, i, ds);
    }
    LastLabel(buf, o, x, v, vbits, b0, out, at, s, ds);
  }

  /** Lines 23-32: digits are written as long as there are five bits in hand. */
  method WriteDigits(buf: array<byte>, o0: nat, x0: nat, v0: nat, bits0: nat,
                     ghost b0: seq<byte>, ghost out: nat, ghost at: nat, ghost s: seq<byte>, ghost i: nat,
                       ghost ds0: seq<digit>)
    returns (o: nat, x: nat, v: nat, vbits: nat, ghost ds: seq<digit>)
    requires Halfway(b0, buf[..], out, at, s, i, v0, bits0, ds0) && out + BytesSize(|s|) <= at + |s|
    requires o0 == out + 51 * (|ds0| / 50) && x0 == |ds0| % 50
    modifies buf
    ensures vbits < 5 && Halfway(b0, buf[..], out, at, s, i, v, vbits, ds)
    ensures o == out + 51 * (|ds| / 50) && x == |ds| % 50
  {
    hide Halfway;
    o, x, v, vbits, ds := o0, x0, v0, bits0, ds0;
    while vbits >= 5
      invariant Halfway(b0, buf[..], out, at, s, i, v, vbits, ds)
      invariant o == out + 51 * (|ds| / 50) && x == |ds| % 50
      decreases vbits
    {
      o, x := WriteDigit(buf, o, x, v, vbits, b0, out, at, s, i, ds);
      ds := ds + [v % 32];
      v := v / 32;
      vbits := vbits - 5;
    }
  }

  lemma HalfwayStart(b0: seq<byte>, out: nat, at: nat, s: seq<byte>)
    requires at + |s| <= |b0| && s == b0[at..at + |s|]
    ensures Halfway(b0, b0, out, at, s, 0, 0, 0, [])
  {
    hide Encoding;
    EncodingStart(s);
  }

  lemma HalfwayByte(b0: seq<byte>, b: seq<byte>, out: nat, at: nat, s: seq<byte>, i: nat, v: nat, vbits: nat,
                    ds: seq<digit>)
    requires Halfway(b0, b, out, at, s, i, v, vbits, ds) && i < |s|
    ensures at + i < |b| && b[at + i] == s[i]
    ensures Halfway(b0, b, out, at, s, i + 1, Or(v, Shl(s[i], vbits)), vbits + 8, ds)
  {
    hide Encoding, Written, Or, Shl;
    EncodingByte(s, i, v, vbits, ds);
  }

  /** Lines 35-36: the last digit and the length of the last label. */
  method LastLabel(buf: array<byte>, o0: nat, x0: nat, v: nat, vbits: nat,
                   ghost b0: seq<byte>, ghost out: nat, ghost at: nat, ghost s: seq<byte>, ghost ds: seq<digit>)
    requires Halfway(b0, buf[..], out, at, s, |s|, v, vbits, ds) && vbits < 5 && out + BytesSize(|s|) <= at + |s|
    requires o0 == out + 51 * (|ds| / 50) && x0 == |ds| % 50
    modifies buf
    ensures out + BytesSize(|s|) <= buf.Length && IsWire(buf[out..out + BytesSize(|s|)], Encoded(s))
    ensures forall y :: 0 <= y < buf.Length && (y < out || y >= out + BytesSize(|s|)) ==> buf[y] == b0[y]
  {
    hide Written, Encoding, IsWire, Halfway;
    ghost var all;
    var o, x;
    o, x, all := LastOut(buf, o0, x0, v, vbits, b0, out, at, s, ds);
    ghost var b := buf[..];
    if x > 0 {
      LabelInside(out, |all|);
      buf[o] := x;
    }
    Whole(b, buf[..], out, all, Text(all));
  }

  lemma LabelInside(out: nat, n: nat)
    requires n % 50 > 0
    ensures out <= out + 51 * (n / 50) < out + WireSize(n)
  {
  }

  /** Line 35. */
  method LastOut(buf: array<byte>, o0: nat, x0: nat, v: nat, vbits: nat,
                 ghost b0: seq<byte>, ghost out: nat, ghost at: nat, ghost s: seq<byte>, ghost ds: seq<digit>)
                   returns (o: nat, x: nat, ghost all: seq<digit>)
    requires Halfway(b0, buf[..], out, at, s, |s|, v, vbits, ds) && vbits < 5 && out + BytesSize(|s|) <= at + |s|
    requires o0 == out + 51 * (|ds| / 50) && x0 == |ds| % 50
    modifies buf
    ensures out + BytesSize(|s|) <= buf.Length == |b0| && all == Digits(Le(s), Needed(|s|))
            && Written(buf[..], out, all)
    ensures o == out + 51 * (|all| / 50) && x == |all| % 50
    ensures forall y :: 0 <= y < buf.Length && (y < out || y >= out + BytesSize(|s|)) ==> buf[y] == b0[y]
  {
    hide Written, Encoding, Digits, Le, Unread;
    all, o, x := ds, o0, x0;
    EncodingCount(s, |s|, v, vbits, ds);
    EncodingEnd(s, v, vbits, ds);
    UnreadInside(buf[..], at, s, |s|);
    if vbits > 0 {
      assert Place(|ds|) < BytesSize(|s|);
      o, x := PutDigit(buf, o, x, v % 32, out, ds);
      all := ds + [v];
    }
  }

  lemma Whole(b: seq<byte>, b': seq<byte>, out: nat, ds: seq<digit>, c: seq<byte>)
    requires Written(b, out, ds) && c == Text(ds) && |b'| == |b| && out + WireSize(|c|) <= |b|
    requires forall y :: 0 <= y < |b| && y != out + 51 * (|ds| / 50) ==> b'[y] == b[y]
    requires if |ds| % 50 > 0 then b'[out + 51 * (|ds| / 50)] == |ds| % 50 else b' == b
    ensures IsWire(b'[out..out + WireSize(|c|)], c)
  {
    var w := b'[out..out + WireSize(|c|)];
    var n := |c|;
    forall t | 0 <= t < n ensures Place(t) < |w| && w[Place(t)] == c[t] {
      assert b[out + Place(t)] == Letter(ds[t]);
      PlaceApart(t, n);
    }
    forall g | 0 <= g < (n + 49) / 50 ensures LabelAt(w, g, if n - 50 * g < 50 then n - 50 * g else 50) {
      if g < n / 50 { assert FullAt(b, out, g); }
    }
  }

  // ----- the key

  function KeyLabel(key: seq<byte>): (w: seq<byte>)
    requires |key| == 32
    ensures |w| == 55
  {
    [54, 120, 49, 97] + KeyText(key)
  }

  lemma {:induction false} DigitsPrefix(x: nat, n: nat, k: nat)
    requires k <= n
    ensures Digits(x, n)[..k] == Digits(x, k)
    decreases n
  {
    if k != 0 { DigitsPrefix(x / 32, n - 1, k - 1); }
  }

  lemma KeyDigits(key: seq<byte>, v: nat, vbits: nat, ds: seq<digit>)
    requires |key| == 32 && Encoding(key, 32, v, vbits, ds) && vbits < 5
    ensures |ds| == 51 && Text(ds) == KeyText(key)
  {
    hide Digits;
    DigitsPrefix(Le(key), 52, 51);
    assert |ds| == 51;
    assert ds == (ds + Digits(Left(v, vbits, key[32..]), 1))[..51];
  }

  /** `dns_base32_encodekey`, lines 39-56. */
  method EncodeKey(buf: array<byte>, out: nat, key: seq<byte>)
    requires |key| == 32 && out + 55 <= buf.Length
    modifies buf
    ensures buf[..] == Splice(old(buf[..]), out, KeyLabel(key))
  {
    hide Encoding, Splice, Or, Shl, Pow2, Text, Digits;
    CopyBytes(buf, out, [54, 120, 49, 97]);
    ghost var b0 := buf[..];
    ghost var ds: seq<digit> := [];
    var v: nat, vbits: nat, i, o := 0, 0, 0, out + 4;
    EncodingStart(key);
    KeyNone(b0, out + 4);
    while i < 32
      invariant 0 <= i <= 32 && vbits < 5 && Encoding(key, i, v, vbits, ds) && o == out + 4 + |ds| && |ds| <= 51
      invariant buf[..] == Splice(b0, out + 4, Text(ds))
    {
      EncodingByte(key, i, v, vbits, ds);
      v := Or(v, Shl(key[i], vbits));
      vbits := vbits + 8;
      i := i + 1;
      while vbits >= 5
        invariant Encoding(key, i, v, vbits, ds) && o == out + 4 + |ds| && |ds| <= 51
        invariant buf[..] == Splice(b0, out + 4, Text(ds))
        decreases vbits
      {
        EncodingCount(key, i, v, vbits, ds);
        EncodingDigit(key, i, v, vbits, ds);
        PutKeyDigit(buf, o, v % 32, b0, out + 4, ds);
        o := o + 1;
        ds := ds + [v % 32];
        v := v / 32;
        vbits := vbits - 5;
      }
    }
    KeyDigits(key, v, vbits, ds);
    SpliceSplice(old(buf[..]), out, [54, 120, 49, 97], KeyText(key));
  }

  method PutKeyDigit(buf: array<byte>, o: nat, d: digit, ghost b0: seq<byte>, ghost at: nat, ghost ds: seq<digit>)
    requires o == at + |ds| < buf.Length == |b0| && buf[..] == Splice(b0, at, Text(ds))
    modifies buf
    ensures buf[..] == Splice(b0, at, Text(ds + [d]))
  {
    ghost var b := buf[..];
    buf[o] := Letter(d);
    assert buf[..] == b[o := Letter(d)];
    KeyPut(b0, at, ds, d);
  }

  lemma KeyNone(b: seq<byte>, at: nat)
    requires at <= |b|
    ensures Splice(b, at, Text([])) == b
  {
  }

  lemma KeyPut(b: seq<byte>, at: nat, ds: seq<digit>, d: digit)
    requires at + |ds| < |b|
    ensures Splice(b, at, Text(ds))[at + |ds| := Letter(d)] == Splice(b, at, Text(ds + [d]))
  {
  }

  // ----- decoding

  lemma {:induction false} NumberSnoc(ds: seq<digit>, d: digit)
    ensures Number(ds + [d]) == Number(ds) + Pow2(5 * |ds|) * d
  {
    if ds == [] {
      assert [d][1..] == [];
    } else {
      NumberSnoc(ds[1..], d);
      assert (ds + [d])[1..] == ds[1..] + [d];
      Pow2Five(|ds| - 1);
      MulAssoc(32, Pow2(5 * (|ds| - 1)), d);
    }
  }

  /** The digits read so far: the bytes written, and the bits in hand. */
  ghost predicate Decoding(s: seq<byte>, j: nat, out: seq<byte>, v: nat, bits: nat)
  {
    && j <= |s| && AllDigits(s[..j]) && 5 * j == 8 * |out| + bits && v < Pow2(bits)
    && Number(DigitsOf(s[..j])) == Le(out) + Pow2(8 * |out|) * v
  }

  lemma DecodingDigit(s: seq<byte>, j: nat, out: seq<byte>, v: nat, bits: nat)
    requires Decoding(s, j, out, v, bits) && j < |s| && ValueOf(s[j]).Some?
    ensures Decoding(s, j + 1, out, Or(v, Shl(ValueOf(s[j]).value, bits)), bits + 5)
  {
    hide Pow2, Or, Number, ValueOf;
    var d: nat, p := ValueOf(s[j]).value, Pow2(bits);
    assert s[..j + 1] == s[..j] + [s[j]];
    assert DigitsOf(s[..j + 1]) == DigitsOf(s[..j]) + [ValueOf(s[j]).value];
    NumberSnoc(DigitsOf(s[..j]), ValueOf(s[j]).value);
    OrDisjoint(v, d, bits);
    MulComm(d, p);
    Pow2Add(bits, 5);
    assert Pow2(5) == 32 by { FiveBits(); }
    Pow2Add(8 * |out|, bits);
    DigitSum(v, p, d, Pow2(8 * |out|));
  }

  lemma FiveBits()
    ensures Pow2(5) == 32
  {
  }

  lemma DigitSum(v: nat, p: nat, d: nat, q: nat)
    requires v < p && d < 32
    ensures v + d * p < p * 32 && q * (v + d * p) == q * v + q * p * d
  {
    MulLe(d, 31, p);
    assert q * (v + d * p) == q * v + q * (d * p);
    assert q * (d * p) == q * p * d;
  }

  lemma DecodingByte(s: seq<byte>, j: nat, out: seq<byte>, v: nat, bits: nat)
    requires Decoding(s, j, out, v, bits) && bits >= 8
    ensures Decoding(s, j, out + [v % 256], v / 256, bits - 8)
  {
    hide Pow2, Number;
    var q := Pow2(8 * |out|);
    LeConcat(out, [v % 256]);
    LeOne(v % 256);
    Pow256Pow2(|out|);
    Pow2Add(8 * |out|, 8);
    Pow2At8();
    Pow2Add(bits - 8, 8);
    assert v / 256 < Pow2(bits - 8);
    assert q * v == q * (v % 256)
                    + q * 256 * (v / 256) by { assert v == v % 256 + 256 * (v / 256); MulSum(q, v % 256, v / 256); }
  }

  lemma MulSum(q: nat, a: nat, b: nat)
    ensures q * (a + 256 * b) == q * a + q * 256 * b
  {
    assert q * (256 * b) == q * 256 * b;
  }

  lemma DecodingEnd(s: seq<byte>, out: seq<byte>, v: nat, bits: nat)
    requires Decoding(s, |s|, out, v, bits) && bits < 8
    ensures s[..|s|] == s && AllDigits(s) && |out| == 5 * |s| / 8 && bits == 5 * |s| % 8
    ensures Decoded(s, false) == if bits >= 5 || v != 0 then None else Some(out)
    ensures v < 256 && Decoded(s, true) == Some(if bits > 0 then out + [v] else out)
  {
    hide Pow2, Number, Le, ToLe, DigitsOf;
    assert s[..|s|] == s;
    var x, n := Number(DigitsOf(s)), |out|;
    Split(x, out, v);
    Pow2Mono(bits, 8);
    Pow2At8();
    ZeroBits();
  }

  /** The low bytes, what is above them, and both. */
  lemma Split(x: nat, out: seq<byte>, v: nat)
    requires x == Le(out) + Pow2(8 * |out|) * v
    ensures ToLe(x, |out|) == out && x / Pow2(8 * |out|) == v
    ensures v < 256 ==> ToLe(x, |out| + 1) == out + [v]
  {
    hide Pow2, Le, ToLe;
    var n := |out|;
    LeBelow(out);
    Pow256Pow2(n);
    ToLeSplit(Le(out), v, n, n);
    ToLeLe(out);
    assert ToLe(v, 0) == [];
    MulComm(v, Pow2(8 * n));
    DivModUnique(x, Pow2(8 * n), v, Le(out));
    if v < 256 {
      ToLeSplit(Le(out), v, n + 1, n);
      ToLeOne(v);
    }
  }

  lemma ToLeOne(v: byte)
    ensures ToLe(v, 1) == [v]
  {
    assert ToLe(v, 1) == [v % 256] + ToLe(v / 256, 0);
  }

  lemma ZeroBits()
    ensures Pow2(0) == 1
  {
  }

  /** `misc_base32_decode`, lines 250-293, with room for `room` bytes. */
  method Decode(s: seq<byte>, room: nat, partial: bool) returns (r: Option<seq<byte>>)
    ensures r == if Decoded(s, partial).Some? && |Decoded(s, partial).value| <= room then Decoded(s, partial) else None
  {
    hide Decoding, Decoded, Shl, Or;
    var out: seq<byte>, j: nat, v: nat, bits: nat := [], 0, 0, 0;
    DecodingStart(s);
    while j < |s|
      invariant bits < 8 && Decoding(s, j, out, v, bits) && |out| <= room && 5 * j == 8 * |out| + bits && j <= |s|
    {
      if s[j] >= 128 || ValueOf(s[j]).None? {
        NotDigits(s, j, partial);
        return None;
      }
      DecodingDigit(s, j, out, v, bits);
      v := Or(v, Shl(ValueOf(s[j]).value, bits));
      bits := bits + 5;
      j := j + 1;
      if bits >= 8 {
        if |out| >= room { return None; }
        DecodingByte(s, j, out, v, bits);
        out := out + [v % 256];
        bits := bits - 8;
        v := v / 256;
      }
    }
    DecodingEnd(s, out, v, bits);
    if partial {
      if bits > 0 {
        if |out| >= room { return None; }
        out := out + [v % 256];
      }
    } else if bits >= 5 || v != 0 {
      return None;
    }
    return Some(out);
  }

  lemma DecodingStart(s: seq<byte>)
    ensures Decoding(s, 0, [], 0, 0)
  {
    assert s[..0] == [];
  }

  lemma NotDigits(s: seq<byte>, j: nat, partial: bool)
    requires j < |s| && (s[j] >= 128 || ValueOf(s[j]).None?)
    ensures Decoded(s, partial).None?
  {
  }
}
