/**
 The compiled form: opcodes, the bytes of every construct, and the reading of those bytes that the
 matcher relies on. A compiled pattern is a sequence of items: the pieces of all alternatives in
 order, an on_failure_jump (Fork) before and a jump_past_alt (Past) after every alternative but
 the last.
 */
module RegexCode {
  import Arithmetic
  import opened Bytes
  import opened RegexAst

  const NO_OP: byte := 0
  const EXACTN: byte := 1
  const ANYCHAR: byte := 2
  const CHARSET: byte := 3
  const CHARSET_NOT: byte := 4
  const BEGLINE: byte := 8
  const ENDLINE: byte := 9
  const BEGBUF: byte := 10
  const ENDBUF: byte := 11
  const JUMP: byte := 12
  const JUMP_PAST_ALT: byte := 13
  const ON_FAILURE_JUMP: byte := 14
  const POP_FAILURE_JUMP: byte := 16
  const MAYBE_POP_JUMP: byte := 17
  const DUMMY_FAILURE_JUMP: byte := 18
  const SUCCEED_N: byte := 20
  const JUMP_N: byte := 21
  const SET_NUMBER_AT: byte := 22

  datatype Item = Term(piece: Piece) | Fork(span: nat, rel: int) | Past(hop: nat, rel: int)

  // ---------- Sets as bit maps, low bit first, without trailing zero bytes ----------

  function MapLenUpTo(members: set<byte>, len: nat): (r: nat)
    requires len <= 32
    ensures r <= len
    ensures r > 0 ==> exists c :: c in members && 8 * (r - 1) <= c < 8 * r
    ensures forall c | c in members :: c < 8 * len ==> c < 8 * r
  {
    if len == 0 then 0
    else if exists c | c in members :: 8 * (len - 1) <= c < 8 * len then len
    else MapLenUpTo(members, len - 1)
  }

  function MapLen(members: set<byte>): (r: nat)
    ensures r <= 32
    ensures forall c | c in members :: c < 8 * r
  {
    MapLenUpTo(members, 32)
  }

  function BitIf(members: set<byte>, c: nat): (r: nat)
    ensures r <= 1
  {
    if c < 256 && c in members then 1 else 0
  }

  function MapByte(members: set<byte>, k: nat): byte {
    BitIf(members, 8 * k) + 2 * BitIf(members, 8 * k + 1) + 4 * BitIf(members, 8 * k + 2)
    + 8 * BitIf(members, 8 * k + 3) + 16 * BitIf(members, 8 * k + 4) + 32 * BitIf(members, 8 * k + 5)
    + 64 * BitIf(members, 8 * k + 6) + 128 * BitIf(members, 8 * k + 7)
  }

  function BitValue(j: nat): (r: nat)
    requires j < 8
    ensures 1 <= r <= 128
  {
    if j == 0 then 1 else if j == 1 then 2 else if j == 2 then 4 else if j == 3 then 8
    else if j == 4 then 16 else if j == 5 then 32 else if j == 6 then 64 else 128
  }

  predicate Bit(x: byte, j: nat)
    requires j < 8
  {
    (x / BitValue(j)) % 2 == 1
  }

  // The digit of weight BitValue(j) in a binary sum.
  lemma DigitOfSum(x: byte, j: nat, low: int, bit: int, high: int)
    requires j < 8 && 0 <= low < BitValue(j) && 0 <= bit <= 1
    requires x == low + BitValue(j) * (bit + 2 * high)
    ensures Bit(x, j) <==> bit == 1
  {
    var power, q := BitValue(j), bit + 2 * high;
    var e := x / power - q;
    assert power * e == power * (x / power) - power * q;
    assert x == power * (x / power) + x % power;
    Arithmetic.SmallMultiple(power, e);
  }

  lemma MapByteBit(members: set<byte>, k: nat, j: nat)
    requires k < 32 && j < 8
    ensures Bit(MapByte(members, k), j) <==> 8 * k + j in members
  {
    var b0, b1, b2, b3 := BitIf(members, 8 * k), BitIf(members, 8 * k + 1), BitIf(members, 8 * k + 2), BitIf(members,
                                8 * k + 3);
    var b4, b5, b6, b7 := BitIf(members, 8 * k + 4), BitIf(members, 8 * k + 5), BitIf(members,
                                8 * k + 6), BitIf(members, 8 * k + 7);
    DigitOfBits(MapByte(members, k), j, b0, b1, b2, b3, b4, b5, b6, b7);
    assert BitIf(members, 8 * k + j) == [b0, b1, b2, b3, b4, b5, b6, b7][j];
  }

  lemma DigitOfBits(x: byte, j: nat, b0: nat, b1: nat, b2: nat, b3: nat, b4: nat, b5: nat, b6: nat, b7: nat)
    requires b0 <= 1 && b1 <= 1 && b2 <= 1 && b3 <= 1 && b4 <= 1 && b5 <= 1 && b6 <= 1 && b7 <= 1
    requires x == b0 + 2 * b1 + 4 * b2 + 8 * b3 + 16 * b4 + 32 * b5 + 64 * b6 + 128 * b7
    requires j < 8
    ensures Bit(x, j) <==> [b0, b1, b2, b3, b4, b5, b6, b7][j] == 1
  {
    if j == 0 { DigitOfSum(x, 0, 0, b0, b1 + 2 * b2 + 4 * b3 + 8 * b4 + 16 * b5 + 32 * b6 + 64 * b7); }
    else if j == 1 { DigitOfSum(x, 1, b0, b1, b2 + 2 * b3 + 4 * b4 + 8 * b5 + 16 * b6 + 32 * b7); }
    else if j == 2 { DigitOfSum(x, 2, b0 + 2 * b1, b2, b3 + 2 * b4 + 4 * b5 + 8 * b6 + 16 * b7); }
    else if j == 3 { DigitOfSum(x, 3, b0 + 2 * b1 + 4 * b2, b3, b4 + 2 * b5 + 4 * b6 + 8 * b7); }
    else if j == 4 { DigitOfSum(x, 4, b0 + 2 * b1 + 4 * b2 + 8 * b3, b4, b5 + 2 * b6 + 4 * b7); }
    else if j == 5 { DigitOfSum(x, 5, b0 + 2 * b1 + 4 * b2 + 8 * b3 + 16 * b4, b5, b6 + 2 * b7); }
    else if j == 6 { DigitOfSum(x, 6, b0 + 2 * b1 + 4 * b2 + 8 * b3 + 16 * b4 + 32 * b5, b6, b7); }
    else { DigitOfSum(x, 7, b0 + 2 * b1 + 4 * b2 + 8 * b3 + 16 * b4 + 32 * b5 + 64 * b6, b7, 0); }
  }

  function MapBytes(members: set<byte>, len: nat): (r: seq<byte>)
    requires len <= 32
    ensures |r| == len
  {
    seq(len, k requires 0 <= k < len => MapByte(members, k))
  }

  // The bit map test of charset and charset_not: s[0] is the number of map bytes that follow.
  predicate InMap(s: seq<byte>, c: byte)
    requires |s| > 0 && |s| - 1 == s[0]
  {
    var i: int := c;
    var limit: int := s[0];
    i < limit * 8 && Bit(s[1 + i / 8], i % 8)
  }

  lemma InMapIsMember(members: set<byte>, c: byte)
    ensures var s := [MapLen(members)] + MapBytes(members, MapLen(members));
            InMap(s, c) <==> c in members
  {
    var i: int := c;
    if i < 8 * MapLen(members) {
      MapByteBit(members, i / 8, i % 8);
    }
  }

  // ---------- Bytes of one item ----------

  function AtomCode(atom: Atom): (s: seq<byte>)
    ensures 1 <= |s| <= 34
  {
    match atom
    case Lit(c) => [EXACTN, 1, c]
    case Any => [ANYCHAR]
    case Set(neg, members) =>
      [if neg then CHARSET_NOT else CHARSET, MapLen(members)] + MapBytes(members, MapLen(members))
  }

  function SpotCode(spot: Spot): byte {
    match spot
    case BegLine => BEGLINE
    case EndLine => ENDLINE
    case BegBuf => BEGBUF
    case EndBuf => ENDBUF
  }

  function Op1(op: byte, arg: int): seq<byte> { [op, Lo(arg), Hi(arg)] }

  function Op2(op: byte, arg1: int, arg2: int): seq<byte> { [op, Lo(arg1), Hi(arg1), Lo(arg2), Hi(arg2)] }

  function RepCode(a: seq<byte>, q: Quant): seq<byte> {
    var n := |a|;
    match q
    case Star => Op1(ON_FAILURE_JUMP, n + 3) + a + Op1(MAYBE_POP_JUMP, -(n + 6))
    case Plus => Op1(DUMMY_FAILURE_JUMP, 3) + Op1(ON_FAILURE_JUMP, n + 3) + a + Op1(MAYBE_POP_JUMP, -(n + 6))
    case Quest => Op1(ON_FAILURE_JUMP, n) + a
    case Interval(lo, hi) =>
      if hi == 0 then Op1(JUMP, n) + a
      else if hi == 1 then Op2(SET_NUMBER_AT, 5, lo) + Op2(SUCCEED_N, n + 2, lo) + a
      else Op2(SET_NUMBER_AT, n + 15, hi - 1) + Op2(SET_NUMBER_AT, 5, lo) + Op2(SUCCEED_N, n + 7, lo)
           + a + Op2(JUMP_N, -(n + 8), hi - 1)
  }

  function PieceCode(p: Piece): seq<byte>
    requires p.Exact? ==> |p.s| <= 255
  {
    match p
    case Exact(s) => [EXACTN, |s|] + s
    case One(atom) => AtomCode(atom)
    case Anchor(spot) => [SpotCode(spot)]
    case Rep(atom, q) => RepCode(AtomCode(atom), q)
  }

  ghost predicate WfItem(it: Item) {
    match it
    case Term(p) => WfPiece(p)
    case Fork(_, rel) => InNumberRange(rel)
    case Past(_, rel) => InNumberRange(rel)
  }

  ghost predicate WfItems(items: seq<Item>) { forall i | 0 <= i < |items| :: WfItem(items[i]) }

  ghost function ItemCode(it: Item): (s: seq<byte>)
    requires WfItem(it)
    ensures |s| > 0
  {
    match it
    case Term(p) => PieceCode(p)
    case Fork(_, rel) => Op1(ON_FAILURE_JUMP, rel)
    case Past(_, rel) => Op1(JUMP_PAST_ALT, rel)
  }

  ghost function ItemsCode(items: seq<Item>): seq<byte>
    requires WfItems(items)
  {
    if items == [] then [] else ItemCode(items[0]) + ItemsCode(items[1..])
  }

  lemma {:induction false} ItemsCodeConcat(a: seq<Item>, b: seq<Item>)
    requires WfItems(a) && WfItems(b)
    ensures WfItems(a + b) && ItemsCode(a + b) == ItemsCode(a) + ItemsCode(b)
    decreases |a|
  {
    if a == [] {
      assert a + b == b;
    } else {
      assert (a + b)[1..] == a[1..] + b;
      ItemsCodeConcat(a[1..], b);
    }
  }

  // ---------- Addresses ----------

  function PieceLen(p: Piece): (n: nat)
    ensures n > 0
  {
    match p
    case Exact(s) => 2 + |s|
    case One(atom) => |AtomCode(atom)|
    case Anchor(_) => 1
    case Rep(atom, Star) => |AtomCode(atom)| + 6
    case Rep(atom, Plus) => |AtomCode(atom)| + 9
    case Rep(atom, Quest) => |AtomCode(atom)| + 3
    case Rep(atom, Interval(_, hi)) => |AtomCode(atom)| + (if hi == 0 then 3 else if hi == 1 then 10 else 20)
  }

  function ItemLen(it: Item): (n: nat)
    ensures n > 0
  {
    if it.Term? then PieceLen(it.piece) else 3
  }

  // Address of item i.
  function Off(items: seq<Item>, i: nat): nat
    requires i <= |items|
  {
    if i == 0 then 0 else Off(items, i - 1) + ItemLen(items[i - 1])
  }

  lemma ItemCodeLen(it: Item)
    requires WfItem(it)
    ensures |ItemCode(it)| == ItemLen(it)
  {
  }

  lemma {:induction false} OffWithin(h: seq<Item>, f: seq<Item>, j: nat)
    requires j <= |h|
    ensures Off(h + f, j) == Off(h, j)
    decreases j
  {
    if j > 0 {
      OffWithin(h, f, j - 1);
    }
  }

  lemma {:induction false} OffShift(h: seq<Item>, f: seq<Item>, j: nat)
    requires j <= |f|
    ensures Off(h + f, |h| + j) == Off(h, |h|) + Off(f, j)
    decreases j
  {
    if j == 0 {
      OffWithin(h, f, |h|);
    } else {
      OffShift(h, f, j - 1);
    }
  }

  lemma {:induction false} CodeLen(items: seq<Item>)
    requires WfItems(items)
    ensures |ItemsCode(items)| == Off(items, |items|)
    decreases |items|
  {
    if items != [] {
      CodeLen(items[1..]);
      ItemCodeLen(items[0]);
      assert items == [items[0]] + items[1..];
      OffShift([items[0]], items[1..], |items| - 1);
      assert Off([items[0]], 1) == Off([items[0]], 0) + ItemLen(items[0]);
    }
  }

  lemma {:induction false} OffMonotone(items: seq<Item>, i: nat, j: nat)
    requires i <= j <= |items|
    ensures Off(items, i) + (j - i) <= Off(items, j)
    decreases j
  {
    if i < j {
      OffMonotone(items, i, j - 1);
    }
  }

  lemma SliceMiddle(a: seq<byte>, b: seq<byte>, c: seq<byte>)
    ensures (a + b + c)[|a|..|a + b|] == b
  {
  }

  lemma CodeSplit(pre: seq<Item>, it: Item, post: seq<Item>)
    requires WfItems(pre) && WfItem(it) && WfItems(post)
    ensures WfItems(pre + ([it] + post))
    ensures ItemsCode(pre + ([it] + post)) == ItemsCode(pre) + ItemCode(it) + ItemsCode(post)
  {
    ItemsCodeConcat(pre, [it] + post);
    ItemsCodeConcat([it], post);
    assert ItemsCode([it]) == ItemCode(it) + ItemsCode([]);
  }

  lemma CodeOfItem(items: seq<Item>, i: nat)
    requires WfItems(items) && i < |items|
    ensures Off(items, i) < Off(items, i + 1) <= |ItemsCode(items)| == Off(items, |items|)
    ensures ItemsCode(items)[Off(items, i)..Off(items, i + 1)] == ItemCode(items[i])
  {
    var (pre, it, post) := (items[..i], items[i], items[i + 1..]);
    assert items == pre + ([it] + post);
    CodeSplit(pre, it, post);
    ItemCodeLen(it);
    CodeLen(pre);
    CodeLen(items);
    OffWithin(pre, [it] + post, i);
    OffMonotone(items, i + 1, |items|);
    SliceMiddle(ItemsCode(pre), ItemCode(it), ItemsCode(post));
  }

  // ---------- What maybe_pop_jump decides ----------

  // The test of the loop body against the first byte c of what follows, with the truncating cast
  // of the map length to one byte: "body and c cannot clash".
  predicate NoClash(atom: Atom, c: byte) {
    match atom
    case Lit(x) => x != c
    case Any => false
    case Set(neg, members) =>
      var inMap := c < (MapLen(members) * 8) % 256 && c in members;
      !(if inMap then !neg else neg)
  }

  predicate PopChosen(items: seq<Item>, i: nat)
    requires i < |items| && items[i].Term? && items[i].piece.Rep?
  {
    if i + 1 == |items| then true
    else match items[i + 1]
      case Term(Exact(s)) => |s| > 0 && NoClash(items[i].piece.atom, s[0])
      case Term(Anchor(EndLine)) => NoClash(items[i].piece.atom, NEWLINE)
      case _ => false
  }

  // ---------- Reading the bytes of item i, whatever the matcher has rewritten ----------

  ghost predicate NumIs(s: seq<byte>, k: nat, number: int) {
    k + 1 < |s| && s[k] == Lo(number) && s[k + 1] == Hi(number)
  }

  ghost predicate JumpAt(s: seq<byte>, k: nat, op: byte, rel: int) {
    k + 2 < |s| && s[k] == op && NumIs(s, k + 1, rel)
  }

  // The backward jump of a loop, before or after it has been resolved.
  ghost predicate BackAt(items: seq<Item>, i: nat, s: seq<byte>, k: nat, rel: int)
    requires i < |items| && items[i].Term? && items[i].piece.Rep?
  {
    && k + 2 < |s| && NumIs(s, k + 1, rel)
    && (s[k] == MAYBE_POP_JUMP || s[k] == (if PopChosen(items, i) then POP_FAILURE_JUMP else JUMP))
  }

  // The counts inside succeed_n and jump_n are left open: the matcher overwrites them.
  ghost predicate RepReads(items: seq<Item>, i: nat, s: seq<byte>, a: seq<byte>, q: Quant)
    requires i < |items| && items[i].Term? && items[i].piece.Rep?
  {
    var n := |a|;
    match q
    case Star => |s| == n + 6 && JumpAt(s, 0, ON_FAILURE_JUMP, n + 3) && s[3..3 + n] == a
    && BackAt(items, i, s, n + 3, -(n + 6))
    case Plus => |s| == n + 9 && JumpAt(s, 0, DUMMY_FAILURE_JUMP, 3) && JumpAt(s, 3, ON_FAILURE_JUMP, n + 3)
                 && s[6..6 + n] == a && BackAt(items, i, s, n + 6, -(n + 6))
    case Quest => |s| == n + 3 && JumpAt(s, 0, ON_FAILURE_JUMP, n) && s[3..3 + n] == a
    case Interval(lo, hi) =>
      if hi == 0 then |s| == n + 3 && JumpAt(s, 0, JUMP, n) && s[3..3 + n] == a
      else if hi == 1 then
        |s| == n + 10 && JumpAt(s, 0, SET_NUMBER_AT, 5) && NumIs(s, 3, lo)
        && JumpAt(s, 5, SUCCEED_N, n + 2) && s[10..10 + n] == a
      else
        |s| == n + 20 && JumpAt(s, 0, SET_NUMBER_AT, n + 15) && NumIs(s, 3, hi - 1)
        && JumpAt(s, 5, SET_NUMBER_AT, 5) && NumIs(s, 8, lo)
        && JumpAt(s, 10, SUCCEED_N, n + 7) && s[15..15 + n] == a && JumpAt(s, 15 + n, JUMP_N, -(n + 8))
  }

  ghost predicate Reads(items: seq<Item>, i: nat, s: seq<byte>)
    requires i < |items|
  {
    && |s| == ItemLen(items[i])
    && match items[i]
       case Term(Exact(str)) => |str| <= 255 && s == [EXACTN, |str|] + str
       case Term(One(atom)) => s == AtomCode(atom)
       case Term(Anchor(spot)) => s == [SpotCode(spot)]
       case Term(Rep(atom, q)) => RepReads(items, i, s, AtomCode(atom), q)
       case Fork(_, rel) => JumpAt(s, 0, ON_FAILURE_JUMP, rel)
       case Past(_, rel) => JumpAt(s, 0, JUMP_PAST_ALT, rel)
  }

  ghost function Slot(items: seq<Item>, i: nat, code: seq<byte>): seq<byte>
    requires i < |items| && |code| == Off(items, |items|)
  {
    OffMonotone(items, i, i + 1);
    OffMonotone(items, i + 1, |items|);
    code[Off(items, i)..Off(items, i + 1)]
  }

  // The code is the compiled form of the items, up to the matcher's own rewriting.
  ghost predicate Compiled(items: seq<Item>, code: seq<byte>) {
    && WfItems(items)
    && |code| == Off(items, |items|)
    && forall i: nat | i < |items| :: Reads(items, i, Slot(items, i, code))
  }

  // A stored number is read back by EXTRACT_NUMBER.
  lemma NumReads(s: seq<byte>, k: nat, number: int)
    requires NumIs(s, k, number) && InNumberRange(number)
    ensures NumAt(s, k) == number
  {
    NumberRoundTrip(number);
  }

  // The bytes of x are the bytes of s from k on.
  ghost predicate Stands(x: seq<byte>, s: seq<byte>, k: nat) {
    k + |x| <= |s| && forall j: nat | j < |x| :: s[k + j] == x[j]
  }

  lemma NumStands(s: seq<byte>, code: seq<byte>, at: nat, k: nat, number: int)
    requires Stands(s, code, at) && NumIs(s, k, number)
    ensures NumIs(code, at + k, number)
  {
    assert code[at + k] == s[k] && code[at + (k + 1)] == s[k + 1];
  }

  lemma FreshLoopReads(items: seq<Item>, i: nat, a: seq<byte>, q: Quant)
    requires i < |items| && items[i].Term? && items[i].piece.Rep?
    requires 1 <= |a| <= 34 && !q.Interval?
    ensures RepReads(items, i, RepCode(a, q), a, q)
  {
    hide Lo, Hi, AtomCode;
    match q
    case Star => StarStands(RepCode(a, q), a);
    case Plus => PlusStands(RepCode(a, q), a);
    case Quest => ForwardStands(RepCode(a, q), a, ON_FAILURE_JUMP);
  }

  lemma StarStands(s: seq<byte>, a: seq<byte>)
    requires s == RepCode(a, Star)
    ensures var n := |a|;
            && |s| == n + 6 && JumpAt(s, 0, ON_FAILURE_JUMP, n + 3) && s[3..3 + n] == a
            && JumpAt(s, n + 3, MAYBE_POP_JUMP, -(n + 6))
  {
    hide Lo, Hi;
    var n := |a|;
    var o, m := Op1(ON_FAILURE_JUMP, n + 3), Op1(MAYBE_POP_JUMP, -(n + 6));
    assert s[0] == o[0] && s[1] == o[1] && s[2] == o[2];
    assert s[n + 3] == m[0] && s[n + 4] == m[1] && s[n + 5] == m[2];
  }

  lemma PlusStands(s: seq<byte>, a: seq<byte>)
    requires s == RepCode(a, Plus)
    ensures var n := |a|;
            && |s| == n + 9 && JumpAt(s, 0, DUMMY_FAILURE_JUMP, 3) && JumpAt(s, 3, ON_FAILURE_JUMP, n + 3)
            && s[6..6 + n] == a && JumpAt(s, n + 6, MAYBE_POP_JUMP, -(n + 6))
  {
    hide Lo, Hi;
    var n := |a|;
    var u, o, m := Op1(DUMMY_FAILURE_JUMP, 3), Op1(ON_FAILURE_JUMP, n + 3), Op1(MAYBE_POP_JUMP, -(n + 6));
    assert s[0] == u[0] && s[1] == u[1] && s[2] == u[2];
    assert s[3] == o[0] && s[4] == o[1] && s[5] == o[2];
    assert s[n + 6] == m[0] && s[n + 7] == m[1] && s[n + 8] == m[2];
  }

  lemma ForwardStands(s: seq<byte>, a: seq<byte>, op: byte)
    requires s == Op1(op, |a|) + a
    ensures |s| == |a| + 3 && JumpAt(s, 0, op, |a|) && s[3..3 + |a|] == a
  {
    hide Lo, Hi;
  }

  lemma FreshIntervalReads(items: seq<Item>, i: nat, a: seq<byte>, lo: nat, hi: nat)
    requires i < |items| && items[i].Term? && items[i].piece.Rep?
    requires 1 <= |a| <= 34 && lo <= hi <= RE_DUP_MAX
    ensures RepReads(items, i, RepCode(a, Interval(lo, hi)), a, Interval(lo, hi))
  {
    hide Lo, Hi, AtomCode;
    var s := RepCode(a, Interval(lo, hi));
    if hi == 0 {
      ForwardStands(s, a, JUMP);
    } else if hi == 1 {
      OnceStands(s, a, lo);
    } else {
      CountedStands(s, a, lo, hi);
    }
  }

  lemma OnceStands(s: seq<byte>, a: seq<byte>, lo: nat)
    requires s == RepCode(a, Interval(lo, 1))
    ensures var n := |a|;
            && |s| == n + 10 && JumpAt(s, 0, SET_NUMBER_AT, 5) && NumIs(s, 3, lo)
            && JumpAt(s, 5, SUCCEED_N, n + 2) && NumIs(s, 8, lo) && s[10..10 + n] == a
  {
    hide Lo, Hi;
    var n := |a|;
    var x, y := Op2(SET_NUMBER_AT, 5, lo), Op2(SUCCEED_N, n + 2, lo);
    assert s[0] == x[0] && s[1] == x[1] && s[2] == x[2] && s[3] == x[3] && s[4] == x[4];
    assert s[5] == y[0] && s[6] == y[1] && s[7] == y[2] && s[8] == y[3] && s[9] == y[4];
  }

  lemma CountedStands(s: seq<byte>, a: seq<byte>, lo: nat, hi: nat)
    requires hi > 1 && s == RepCode(a, Interval(lo, hi))
    ensures var n := |a|;
            && |s| == n + 20 && JumpAt(s, 0, SET_NUMBER_AT, n + 15) && NumIs(s, 3, hi - 1)
            && JumpAt(s, 5, SET_NUMBER_AT, 5) && NumIs(s, 8, lo) && JumpAt(s, 10, SUCCEED_N, n + 7) && NumIs(s, 13, lo)
            && s[15..15 + n] == a && JumpAt(s, 15 + n, JUMP_N, -(n + 8)) && NumIs(s, 18 + n, hi - 1)
  {
    hide Lo, Hi;
    var n := |a|;
    var x, y, z, w := Op2(SET_NUMBER_AT, n + 15, hi - 1), Op2(SET_NUMBER_AT, 5, lo), Op2(SUCCEED_N, n + 7,
                          lo), Op2(JUMP_N, -(n + 8), hi - 1);
    assert s[0] == x[0] && s[1] == x[1] && s[2] == x[2] && s[3] == x[3] && s[4] == x[4];
    assert s[5] == y[0] && s[6] == y[1] && s[7] == y[2] && s[8] == y[3] && s[9] == y[4];
    assert s[10] == z[0] && s[11] == z[1] && s[12] == z[2] && s[13] == z[3] && s[14] == z[4];
    assert s[n + 15] == w[0] && s[n + 16] == w[1] && s[n + 17] == w[2] && s[n + 18] == w[3] && s[n + 19] == w[4];
  }

  /** The bytes as the compiler leaves them are read back as the constructs they came from. */
  lemma FreshCodeIsCompiled(items: seq<Item>)
    requires WfItems(items)
    ensures Compiled(items, ItemsCode(items))
  {
    var code := ItemsCode(items);
    CodeLen(items);
    forall i: nat | i < |items|
      ensures Reads(items, i, Slot(items, i, code))
    {
      CodeOfItem(items, i);
      ItemCodeLen(items[i]);
      match items[i]
      case Term(Rep(atom, Interval(lo, hi))) => FreshIntervalReads(items, i, AtomCode(atom), lo, hi);
      case Term(Rep(atom, q)) => FreshLoopReads(items, i, AtomCode(atom), q);
      case _ =>
    }
  }
}
