/** The bit map of a bracket expression: cleared, filled range by range, and trimmed. */
module RegexBracket {
  import opened Bytes
  import opened RegexAst
  import opened RegexCode

  // A bracket expression as read: single members c are the ranges c-c.
  datatype Range = Range(lo: byte, hi: byte)

  predicate OrderedRanges(ranges: seq<Range>) { forall k | 0 <= k < |ranges| :: ranges[k].lo <= ranges[k].hi }

  predicate InRange(r: Range, c: byte) { r.lo <= c <= r.hi }

  predicate InRanges(ranges: seq<Range>, c: byte) { exists k :: 0 <= k < |ranges| && InRange(ranges[k], c) }

  ghost function Members(ranges: seq<Range>): set<byte> { set c: byte | InRanges(ranges, c) }

  /** A byte matches a bracket expression if it lies in one of its ranges, both ends included; with `^`, if it lies
      in none. */
  lemma BracketMatches(neg: bool, ranges: seq<Range>, c: byte)
    ensures AtomMatches(Set(neg, Members(ranges)), c) <==>
            (exists k :: 0 <= k < |ranges| && ranges[k].lo <= c <= ranges[k].hi) != neg
  {
    assert InRanges(ranges, c) <==> exists k :: 0 <= k < |ranges| && InRange(ranges[k], c);
    if k :| 0 <= k < |ranges| && ranges[k].lo <= c <= ranges[k].hi { assert InRange(ranges[k], c); }
  }

  predicate Between(lo: int, hi: int, c: byte) { lo <= c < hi }

  lemma BitOfNewMember(members: set<byte>, c: byte)
    ensures var (i: int, more) := (c, members + {c});
            && MapByte(more, i / 8) == MapByte(members, i / 8) + (if c in members then 0 else BitValue(i % 8))
            && forall k: nat | k != i / 8 :: MapByte(more, k) == MapByte(members, k)
  {
    var (i: int, more) := (c, members + {c});
    var k := i / 8;
    assert BitIf(more, i) == 1 && BitIf(members, i) == if c in members then 1 else 0;
    assert forall n: nat | n != i :: BitIf(more, n) == BitIf(members, n);
    assert i == 8 * k + i % 8;
  }

  // SET_LIST_BIT.
  method SetListBit(buf: array<byte>, at: nat, c: byte, ghost members: set<byte>)
    requires at + 32 <= buf.Length && buf[at..at + 32] == MapBytes(members, 32)
    modifies buf
    ensures buf[at..at + 32] == MapBytes(members + {c}, 32) && buf[..at] == old(buf[..at])
  {
    hide MapByte;
    var i: int := c;
    assert buf[at + i / 8] == buf[at..at + 32][i / 8] == MapByte(members, i / 8);
    MapByteBit(members, i / 8, i % 8);
    BitOfNewMember(members, c);
    if !Bit(buf[at + i / 8], i % 8) {
      buf[at + i / 8] := buf[at + i / 8] + BitValue(i % 8);
    }
    forall k: nat | k < 32
      ensures buf[at..at + 32][k] == MapByte(members + {c}, k)
    {
      assert k != i / 8 ==> buf[at + k] == old(buf[at..at + 32])[k];
    }
  }

  // compile_range, without its error for a range that ends before it starts.
  method SetListRange(buf: array<byte>, at: nat, r: Range, ghost members: set<byte>)
    requires at + 32 <= buf.Length && buf[at..at + 32] == MapBytes(members, 32) && r.lo <= r.hi
    modifies buf
    ensures buf[at..at + 32] == MapBytes(members + Members([r]), 32) && buf[..at] == old(buf[..at])
  {
    hide MapBytes;
    var thisChar: int := r.lo;
    ghost var seen: set<byte> := {};
    assert members + seen == members;
    while thisChar <= r.hi
      invariant r.lo <= thisChar <= r.hi + 1
      invariant seen == set c: byte | Between(r.lo, thisChar, c)
      invariant buf[at..at + 32] == MapBytes(members + seen, 32) && buf[..at] == old(buf[..at])
    {
      SetListBit(buf, at, thisChar, members + seen);
      assert members + seen + {thisChar} == members + (seen + {thisChar});
      seen := seen + {thisChar};
      thisChar := thisChar + 1;
    }
    forall c: byte
      ensures c in seen <==> c in Members([r])
    {
      assert InRange([r][0], c) <==> Between(r.lo, thisChar, c);
    }
    assert seen == Members([r]);
  }

  lemma MembersSnoc(ranges: seq<Range>, r: Range)
    ensures Members(ranges + [r]) == Members(ranges) + Members([r])
  {
    var all := ranges + [r];
    forall c: byte
      ensures InRanges(all, c) <==> InRanges(ranges, c) || InRanges([r], c)
    {
      if InRanges(all, c) {
        var k :| 0 <= k < |all| && InRange(all[k], c);
        if k == |ranges| { assert InRange([r][0], c); } else { assert InRange(ranges[k], c); }
      }
      if InRanges(ranges, c) {
        var k :| 0 <= k < |ranges| && InRange(ranges[k], c);
        assert InRange(all[k], c);
      }
      if InRanges([r], c) { assert InRange(all[|ranges|], c); }
    }
  }

  // bzero of the map.
  method ClearBitMap(buf: array<byte>, at: nat)
    requires at + 32 <= buf.Length
    modifies buf
    ensures buf[at..at + 32] == MapBytes({}, 32) && buf[..at] == old(buf[..at])
  {
    var k: nat := 0;
    while k < 32
      invariant k <= 32 && buf[..at] == old(buf[..at])
      invariant forall j: nat | at <= j < at + k :: buf[j] == 0
    {
      buf[at + k] := 0;
      k := k + 1;
    }
    assert forall j: nat | j < 32 :: MapByte({}, j) == 0;
  }

  lemma NoRanges()
    ensures Members([]) == {}
  {
    assert forall c: byte :: !InRanges([], c);
  }

  // Clears the map and sets the bits of all ranges.
  method FillBitMap(buf: array<byte>, at: nat, ranges: seq<Range>)
    requires at + 32 <= buf.Length && OrderedRanges(ranges)
    modifies buf
    ensures buf[at..at + 32] == MapBytes(Members(ranges), 32) && buf[..at] == old(buf[..at])
  {
    hide MapBytes, Members;
    ClearBitMap(buf, at);
    NoRanges();
    var k: nat := 0;
    while k < |ranges|
      invariant k <= |ranges| && buf[..at] == old(buf[..at])
      invariant buf[at..at + 32] == MapBytes(Members(ranges[..k]), 32)
    {
      SetListRange(buf, at, ranges[k], Members(ranges[..k]));
      assert ranges[..k + 1] == ranges[..k] + [ranges[k]];
      MembersSnoc(ranges[..k], ranges[k]);
      k := k + 1;
    }
    assert ranges[..k] == ranges;
  }

  lemma {:induction false} MapLenUnique(members: set<byte>, top: nat, len: nat)
    requires len <= top <= 32 && (forall c | c in members :: c < 8 * top ==> c < 8 * len)
    requires len > 0 ==> exists c :: c in members && 8 * (len - 1) <= c < 8 * len
    ensures MapLenUpTo(members, top) == len
    decreases top
  {
    if len < top { MapLenUnique(members, top - 1, len); }
  }

  lemma ZeroByte(members: set<byte>, k: nat)
    requires k < 32
    ensures MapByte(members, k) == 0 <==> forall c | c in members :: !(8 * k <= c < 8 * k + 8)
  {
    forall c: byte | c in members && 8 * k <= c < 8 * k + 8
      ensures MapByte(members, k) > 0
    {
      MapByteBit(members, k, c - 8 * k);
    }
  }

  // Drops the zero bytes at the end of the map, counting them off in the byte before it.
  method TrimBitMap(buf: array<byte>, at: nat, ghost members: set<byte>)
    requires 0 < at && at + 32 <= buf.Length && buf[at - 1] == 32 && buf[at..at + 32] == MapBytes(members, 32)
    modifies buf
    ensures buf[at - 1] == MapLen(members) && buf[..at - 1] == old(buf[..at - 1])
    ensures buf[at..at + MapLen(members)] == MapBytes(members, MapLen(members))
  {
    hide MapByte;
    var n: nat := buf[at - 1];
    while n > 0 && buf[at + n - 1] == 0
      invariant n <= 32 && buf[at - 1] == n && buf[..at - 1] == old(buf[..at - 1])
      invariant buf[at..at + 32] == MapBytes(members, 32)
      invariant forall c | c in members :: c < 8 * n
    {
      ZeroByte(members, n - 1);
      assert buf[at..at + 32][n - 1] == 0;
      buf[at - 1] := n - 1;
      n := n - 1;
    }
    if n > 0 {
      assert buf[at..at + 32][n - 1] != 0;
      ZeroByte(members, n - 1);
    }
    MapLenUnique(members, 32, n);
    assert buf[at..at + n] == buf[at..at + 32][..n];
  }
}
