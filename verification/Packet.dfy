/**
Reading names in a message (`dq/dns_packet.c`): section 4.1.4 of RFC 1035. `Spells` says which
name the bytes at a position spell through labels and pointers; `GetName` finds it exactly when
it exists within the limits of 255 bytes and 1000 steps.
*/
module Packet {
  import opened Bits
  import opened Names

  /** The position a two-byte pointer leads to. */
  function Target(buf: seq<byte>, pos: nat): nat
    requires pos + 1 < |buf| && buf[pos] >= 192
  {
    var hi: int, lo: int := buf[pos], buf[pos + 1];
    (hi - 192) * 256 + lo
  }

  /** The bytes from `pos` spell `name`, following `jumps` pointers on the way. */
  ghost predicate Spells(buf: seq<byte>, pos: nat, name: seq<byte>, jumps: int)
    decreases |name|, jumps
  {
    && pos < |buf|
    && var ch := buf[pos];
       if ch >= 192 then jumps > 0 && pos + 1 < |buf| && Spells(buf, Target(buf, pos), name, jumps - 1)
       else if ch == 0 then name == [0] && jumps == 0
       else
         && ch < 64 && pos + 1 + ch <= |buf| && 1 + ch <= |name| && name[..1 + ch] == buf[pos..pos + 1 + ch]
         && Spells(buf, pos + 1 + ch, name[1 + ch..], jumps)
  }

  /** The same from inside a label, with `state` bytes of it left. */
  ghost predicate SpellsRest(buf: seq<byte>, pos: nat, state: nat, rest: seq<byte>, jumps: int)
  {
    && pos + state <= |buf| && state <= |rest| && rest[..state] == buf[pos..pos + state]
    && Spells(buf, pos + state, rest[state..], jumps)
  }

  /** Every spelling of a name is a name in wire form. */
  lemma {:induction false} SpellsName(buf: seq<byte>, pos: nat, name: seq<byte>, jumps: int)
    requires Spells(buf, pos, name, jumps)
    ensures IsName(name) && jumps >= 0
    decreases |name|, jumps
  {
    var ch := buf[pos];
    if ch >= 192 {
      SpellsName(buf, Target(buf, pos), name, jumps - 1);
    } else if ch != 0 {
      SpellsName(buf, pos + 1 + ch, name[1 + ch..], jumps);
      assert name[..1 + ch][0] == buf[pos..pos + 1 + ch][0];
    }
  }

  /** A position spells at most one name. */
  lemma {:induction false} SpellsUnique(buf: seq<byte>, pos: nat, a: seq<byte>, i: int, b: seq<byte>, j: int)
    requires Spells(buf, pos, a, i) && Spells(buf, pos, b, j)
    ensures a == b && i == j
    decreases |a|, i
  {
    var ch := buf[pos];
    if ch >= 192 {
      SpellsUnique(buf, Target(buf, pos), a, i - 1, b, j - 1);
    } else if ch != 0 {
      SpellsUnique(buf, pos + 1 + ch, a[1 + ch..], i, b[1 + ch..], j);
      assert a == a[..1 + ch] + a[1 + ch..] && b == b[..1 + ch] + b[1 + ch..];
    }
  }

  /** Where the bytes of the name at `pos` end; 0 stands for malformed bytes (`dns_packet_skipname`, lines 15-30). */
  function SkipName(buf: seq<byte>, pos: nat): nat
    decreases |buf| - pos
  {
    if pos >= |buf| then 0
    else if buf[pos] >= 192 then pos + 2
    else if buf[pos] >= 64 then 0
    else if buf[pos] == 0 then pos + 1
    else SkipName(buf, pos + 1 + buf[pos])
  }

  method Skip(buf: seq<byte>, start: nat) returns (r: nat)
    ensures r == SkipName(buf, start)
  {
    var pos := start;
    while pos < |buf|
      invariant SkipName(buf, pos) == SkipName(buf, start)
      decreases |buf| - pos
    {
      var ch := buf[pos];
      pos := pos + 1;
      if ch >= 192 {
        return pos + 1;
      }
      if ch >= 64 {
        break;
      }
      if ch == 0 {
        return pos;
      }
      pos := pos + ch;
    }
    return 0;
  }

  /** `dns_packet_copy`, lines 5-13: `n` bytes from `pos`, or failure. */
  method Copy(buf: seq<byte>, start: nat, n: nat) returns (pos: nat, out: seq<byte>)
    ensures if n == 0 then pos == start && out == []
            else if start + n <= |buf| then pos == start + n && out == buf[start..start + n] else pos == 0
  {
    pos := start;
    out := [];
    while |out| < n
      invariant |out| <= n && pos == start + |out| && (out == [] || pos <= |buf|)
      invariant pos <= |buf| ==> out == buf[start..pos]
    {
      if pos >= |buf| {
        return 0, out;
      }
      out := out + [buf[pos]];
      pos := pos + 1;
    }
  }

  // ----- dns_packet_getname

  ghost predicate WithinLimits(name: seq<byte>, jumps: int) { |name| <= 255 && |name| + jumps < 1000 }

  /** What the loop knows: `name` so far begins every spelling at `start`, and the rest is spelled from the cursor. */
  ghost predicate Progress(buf: seq<byte>, start: nat, pos: nat, state: nat, name: seq<byte>, jumps: nat)
  {
    forall n: seq<byte>, j: int {:trigger Spells(buf, start, n, j)} ::
      Spells(buf, start, n, j)
      <==> |name| <= |n| && n[..|name|] == name && SpellsRest(buf, pos, state, n[|name|..], j - jumps)
  }

  lemma ProgressStart(buf: seq<byte>, start: nat)
    ensures Progress(buf, start, start, 0, [], 0)
  {
    forall n: seq<byte>, j: int {:trigger Spells(buf, start, n, j)}
      ensures Spells(buf, start, n, j) <==> 0 <= |n| && n[..0] == [] && SpellsRest(buf, start, 0, n[0..], j - 0)
    {
      assert n[0..] == n && n[0..][0..] == n && n[0..][..0] == [];
    }
  }

  /** A byte inside a label. */
  lemma RestByte(buf: seq<byte>, pos: nat, state: nat, rest: seq<byte>, j: int)
    requires state > 0
    ensures SpellsRest(buf, pos, state, rest, j)
            <==> pos < |buf| && |rest| > 0 && rest[0] == buf[pos] && SpellsRest(buf, pos + 1, state - 1, rest[1..], j)
  {
    if pos < |buf| && |rest| > 0 {
      var r := rest[1..];
      assert state - 1 <= |r| ==> r[state - 1..] == rest[state..];
      if pos + state <= |buf| && state <= |rest| {
        assert rest[..state] == [rest[0]] + r[..state - 1];
        assert buf[pos..pos + state] == [buf[pos]] + buf[pos + 1..pos + state];
      }
    }
  }

  /** A length byte, the final zero byte included. */
  lemma RestLabel(buf: seq<byte>, pos: nat, rest: seq<byte>, j: int)
    requires pos < |buf| && 0 < buf[pos] < 64
    ensures SpellsRest(buf, pos, 0, rest, j)
            <==> |rest| > 0 && rest[0] == buf[pos] && SpellsRest(buf, pos + 1, buf[pos], rest[1..], j)
  {
    var ch := buf[pos];
    assert rest[..0] == [] && rest[0..] == rest;
    if |rest| > 0 {
      var r := rest[1..];
      assert ch <= |r| ==> r[ch..] == rest[1 + ch..];
      if pos + 1 + ch <= |buf| && 1 + ch <= |rest| {
        assert rest[..1 + ch] == [rest[0]] + r[..ch];
        assert buf[pos..pos + 1 + ch] == [ch] + buf[pos + 1..pos + 1 + ch];
      }
    }
  }

  lemma RestPointer(buf: seq<byte>, pos: nat, rest: seq<byte>, j: int)
    requires pos < |buf| && buf[pos] >= 192
    ensures SpellsRest(buf, pos, 0, rest, j) ==> pos + 1 < |buf| && j > 0
    ensures pos + 1 < |buf|
            ==> (SpellsRest(buf, pos, 0, rest, j) <==> SpellsRest(buf, Target(buf, pos), 0, rest, j - 1))
  {
    assert rest[..0] == [] && rest[0..] == rest;
    if pos + 1 < |buf| && SpellsRest(buf, Target(buf, pos), 0, rest, j - 1) {
      SpellsName(buf, Target(buf, pos), rest, j - 1);
    }
    if pos + 1 < |buf| && Spells(buf, pos, rest, j) {
      assert Spells(buf, Target(buf, pos), rest, j - 1);
    }
  }

  lemma ProgressByte(buf: seq<byte>, start: nat, pos: nat, state: nat, name: seq<byte>, jumps: nat)
    requires Progress(buf, start, pos, state, name, jumps) && pos < |buf|
    requires state > 0 || 0 < buf[pos] < 64
    ensures Progress(buf, start, pos + 1, if state > 0 then state - 1 else buf[pos], name + [buf[pos]], jumps)
  {
    hide Spells, SpellsRest;
    var name', state' := name + [buf[pos]], if state > 0 then state - 1 else buf[pos];
    forall n: seq<byte>, j: int {:trigger Spells(buf, start, n, j)}
      ensures Spells(buf, start, n, j)
              <==> |name'| <= |n| && n[..|name'|] == name' && SpellsRest(buf, pos + 1, state', n[|name'|..], j - jumps)
    {
      if |name| <= |n| {
        var rest := n[|name|..];
        if state > 0 {
          RestByte(buf, pos, state, rest, j - jumps);
        } else {
          RestLabel(buf, pos, rest, j - jumps);
        }
        if |rest| > 0 {
          assert rest[1..] == n[|name'|..];
          assert n[..|name'|] == n[..|name|] + [rest[0]];
        }
      }
    }
  }

  lemma ProgressJump(buf: seq<byte>, start: nat, pos: nat, name: seq<byte>, jumps: nat)
    requires Progress(buf, start, pos, 0, name, jumps) && pos + 1 < |buf| && buf[pos] >= 192
    ensures Progress(buf, start, Target(buf, pos), 0, name, jumps + 1)
  {
    hide Spells, SpellsRest;
    forall n: seq<byte>, j: int {:trigger Spells(buf, start, n, j)}
      ensures Spells(buf, start, n, j)
              <==> |name| <= |n| && n[..|name|] == name
                   && SpellsRest(buf, Target(buf, pos), 0, n[|name|..], j - (jumps + 1))
    {
      if |name| <= |n| { RestPointer(buf, pos, n[|name|..], j - jumps); }
    }
  }

  /** The bytes at the cursor spell nothing, or only what breaks a limit. */
  ghost predicate Hopeless(buf: seq<byte>, pos: nat, state: nat, name: seq<byte>, jumps: nat, loop: nat)
  {
    || pos >= |buf|
    || |name| >= 255
    || loop >= 999
    || (state == 0 && 64 <= buf[pos] < 192)
    || (state == 0 && buf[pos] >= 192 && pos + 1 >= |buf|)
  }

  lemma NothingSpelled(buf: seq<byte>, start: nat, pos: nat, state: nat, name: seq<byte>, jumps: nat, loop: nat)
    requires Progress(buf, start, pos, state, name, jumps) && loop == |name| + jumps
    requires Hopeless(buf, pos, state, name, jumps, loop)
    ensures forall n: seq<byte>, j: int {:trigger Spells(buf, start, n, j)} ::
              Spells(buf, start, n, j) ==> !WithinLimits(n, j)
  {
    forall n: seq<byte>, j: int {:trigger Spells(buf, start, n,
                                                 j)} | Spells(buf, start, n, j) ensures !WithinLimits(n, j) {
      var rest := n[|name|..];
      assert SpellsRest(buf, pos, state, rest, j - jumps);
      SpellsName(buf, pos + state, rest[state..], j - jumps);
      assert |rest| >= 1;
    }
  }

  lemma ProgressEnd(buf: seq<byte>, start: nat, pos: nat, name: seq<byte>, jumps: nat)
    requires Progress(buf, start, pos, 0, name, jumps) && pos < |buf| && buf[pos] == 0
    ensures Spells(buf, start, name + [0], jumps)
  {
    var n := name + [0];
    assert n[..|name|] == name && n[|name|..] == [0];
    assert [0][0..] == [0] && [0][..0] == [];
    assert SpellsRest(buf, pos, 0, n[|name|..], jumps - jumps);
  }

  lemma SkipLabel(buf: seq<byte>, pos: nat)
    requires pos < |buf| && 0 < buf[pos] < 64
    ensures SkipName(buf, pos) == SkipName(buf, pos + 1 + buf[pos])
  {
  }

  /**
  `dns_packet_getname`, lines 32-79: the name the bytes at `start` spell, exactly when there is one
  within the limits, and the position `dns_packet_skipname` gives. The memory for the name is taken
  to be available.
  */
  method GetName(buf: seq<byte>, start: nat) returns (r: nat, name: seq<byte>, ghost jumps: nat)
    ensures r != 0 ==> Spells(buf, start, name, jumps) && WithinLimits(name, jumps) && r == SkipName(buf, start)
    ensures r == 0 ==> forall n: seq<byte>, j: int {:trigger Spells(buf, start, n, j)} ::
                         Spells(buf, start, n, j) ==> !WithinLimits(n, j)
  {
    hide Progress, Spells;
    var loop, state: nat, firstcompress, pos: nat := 0, 0, 0, start;
    name, jumps := [], 0;
    ProgressStart(buf, start);
    while true
      invariant Progress(buf, start, pos, state, name, jumps)
      invariant loop == |name| + jumps && |name| <= 255 && loop < 1000
      invariant if jumps == 0 then firstcompress == 0 && SkipName(buf, start) == SkipName(buf, pos + state)
                else firstcompress == SkipName(buf, start) > 0
      decreases 1000 - loop
    {
      if pos >= |buf| {
        NothingSpelled(buf, start, pos, state, name, jumps, loop);
        return 0, name, jumps;
      }
      var ch := buf[pos];
      pos := pos + 1;
      loop := loop + 1;
      if loop >= 1000 {
        NothingSpelled(buf, start, pos - 1, state, name, jumps, loop - 1);
        return 0, name, jumps;
      }
      if state > 0 {
        if |name| + 1 > 255 {
          NothingSpelled(buf, start, pos - 1, state, name, jumps, loop - 1);
          return 0, name, jumps;
        }
        ProgressByte(buf, start, pos - 1, state, name, jumps);
        name := name + [ch];
        state := state - 1;
      } else {
        while ch >= 192
          invariant 1 <= pos <= |buf| && ch == buf[pos - 1] && state == 0
          invariant Progress(buf, start, pos - 1, 0, name, jumps)
          invariant loop == |name| + jumps + 1 && loop < 1000
          invariant if jumps == 0 then firstcompress == 0 && SkipName(buf, start) == SkipName(buf, pos - 1)
                    else firstcompress == SkipName(buf, start) > 0
          decreases 1000 - loop
        {
          var where: nat := ((ch as int) - 192) * 256;
          if pos >= |buf| {
            NothingSpelled(buf, start, pos - 1, 0, name, jumps, loop - 1);
            return 0, name, jumps;
          }
          ProgressJump(buf, start, pos - 1, name, jumps);
          ch := buf[pos];
          pos := pos + 1;
          if firstcompress == 0 {
            firstcompress := pos;
          }
          pos := where + ch;
          jumps := jumps + 1;
          if pos >= |buf| {
            NothingSpelled(buf, start, pos, 0, name, jumps, loop);
            return 0, name, jumps;
          }
          ch := buf[pos];
          pos := pos + 1;
          loop := loop + 1;
          if loop >= 1000 {
            NothingSpelled(buf, start, pos - 1, 0, name, jumps, loop - 1);
            return 0, name, jumps;
          }
        }
        if ch >= 64 || |name| + 1 > 255 {
          NothingSpelled(buf, start, pos - 1, 0, name, jumps, loop - 1);
          return 0, name, jumps;
        }
        if ch == 0 {
          ProgressEnd(buf, start, pos - 1, name, jumps);
          name := name + [ch];
          break;
        }
        ProgressByte(buf, start, pos - 1, 0, name, jumps);
        SkipLabel(buf, pos - 1);
        name := name + [ch];
        state := ch;
      }
    }
    r := if firstcompress != 0 then firstcompress else pos;
  }
}

