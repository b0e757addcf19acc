/**
 regex_compile with groups: bytes are inserted behind, between and inside the markers of open groups, each
 jump is stored as soon as its distance is known, and a group's number of inner groups only when it is
 closed, at an address remembered since it was opened. What is laid out is the code of the pattern's tree.
 */
module RegexGroups {
  import opened Bytes
  import opened RegexAst
  import opened RegexCode
  import opened RegexBuild
  import opened RegexCompiler
  import opened RegexTree
  import opened RegexGrowth
  import opened RegexNested
  import opened RegexFlow

  // ---------- The code of the levels ----------

  // The space for a jump that is not stored yet.
  const HOLE: seq<byte> := [0, 0, 0]

  ghost predicate WfNodes(ns: seq<Node>) { forall k | 0 <= k < |ns| :: WfNode(ns[k]) && !ns[k].Either? }

  ghost predicate WfLevel(l: Level) {
    && WfNodes(l.done) && WfNode(l.init) && !l.init.Either? && WfNode(l.last) && !l.last.Either?
    && (if l.some then Solid(l.last) else l.last == Empty)
  }

  ghost function NodeCodes(ns: seq<Node>): (r: seq<seq<byte>>)
    requires WfNodes(ns)
    ensures |r| == |ns| && forall k | 0 <= k < |ns| :: r[k] == Code(ns[k])
  {
    seq(|ns|, k requires 0 <= k < |ns| => Code(ns[k]))
  }

  ghost function DoneCode(l: Level): seq<byte>
    requires WfLevel(l)
  {
    BlocksCode(NodeCodes(l.done), HOLE)
  }

  ghost function LevelCode(l: Level): seq<byte>
    requires WfLevel(l)
  {
    DoneCode(l) + Code(l.init) + Code(l.last)
  }

  ghost predicate WfLevels(ls: seq<Level>) { forall k | 0 <= k < |ls| :: WfLevel(ls[k]) }

  // What stands before level j: the levels around it and the start markers of their groups, which still
  // count 0 inner groups.
  ghost function Before(ls: seq<Level>, j: nat): seq<byte>
    requires j < |ls| && WfLevels(ls)
  {
    if j == 0 then [] else Before(ls, j - 1) + LevelCode(ls[j - 1]) + [START_MEMORY, ls[j].reg, 0]
  }

  // A compile stack element.
  datatype Frame = Frame(begaltOffset: nat, fixup: Place, innerGroupOffset: nat, laststartOffset: nat, regnum: byte)

  // The pointers into level l, which stands behind `front`.
  ghost predicate Points(front: seq<byte>, l: Level, begalt: nat, fixup: Place)
    requires WfLevel(l)
  {
    begalt == |front| + |DoneCode(l)|
    && (if l.done == [] then fixup == Nowhere else begalt >= 3 && fixup == At(begalt - 3))
  }

  ghost predicate LastAt(front: seq<byte>, l: Level, laststart: Place)
    requires WfLevel(l)
  {
    laststart == if l.some then At(|front| + |DoneCode(l)| + |Code(l.init)|) else Nowhere
  }

  // What was remembered when the group inside level j was opened.
  ghost predicate FrameRight(f: Frame, ls: seq<Level>, j: nat)
    requires j + 1 < |ls| && WfLevels(ls)
  {
    var front := Before(ls, j);
    && Points(front, ls[j], f.begaltOffset, f.fixup) && f.regnum == ls[j + 1].reg
    && f.laststartOffset == |front| + |LevelCode(ls[j])| && f.innerGroupOffset == f.laststartOffset + 2
  }

  ghost predicate FramesRight(stack: seq<Frame>, ls: seq<Level>) {
    |ls| == |stack| + 1 && WfLevels(ls) && forall j: nat | j < |stack| :: FrameRight(stack[j], ls, j)
  }

  // ---------- One level ----------

  ghost predicate TopRight(buffer: seq<byte>, front: seq<byte>, l: Level, begalt: nat, fixup: Place, laststart: Place) {
    WfLevel(l) && buffer == front + LevelCode(l) && Points(front, l, begalt, fixup) && LastAt(front, l, laststart)
  }

  lemma PutRight(buffer: seq<byte>, front: seq<byte>, l: Level, begalt: nat, fixup: Place, laststart: Place, p: Piece)
    requires TopRight(buffer, front, l, begalt, fixup, laststart) && WfStep(Put(p))
    ensures TopRight(buffer + PieceCode(p), front, GrowPut(l, p), begalt, fixup,
                     if p.Anchor? then laststart else At(|buffer|))
  {
    hide PieceCode, BlocksCode, NodeCodes;
    var l' := GrowPut(l, p);
    assert WfNode(Leaf(p)) && Code(Leaf(p)) == PieceCode(p);
    if !p.Anchor? {
      assert WfNode(Cat(l.init, l.last)) && Code(Cat(l.init, l.last)) == Code(l.init) + Code(l.last);
    } else if l.some {
      assert WfNode(Cat(l.last, Leaf(p))) && Code(Cat(l.last, Leaf(p))) == Code(l.last) + Code(Leaf(p));
    } else {
      assert WfNode(Cat(l.init, Leaf(p))) && Code(Cat(l.init, Leaf(p))) == Code(l.init) + Code(Leaf(p));
    }
    assert WfLevel(l') && DoneCode(l') == DoneCode(l);
    BytesAround(front, DoneCode(l), Code(l.init), Code(l.last), PieceCode(p));
  }

  lemma BytesAround(a: seq<byte>, b: seq<byte>, c: seq<byte>, d: seq<byte>, e: seq<byte>)
    ensures a + (b + c + d) + e == a + (b + (c + d) + e) == a + (b + c + (d + e))
    ensures d == [] ==> a + (b + c + d) + e == a + (b + (c + e) + d)
  {
  }

  // The insertions and stores for a quantifier on what stands from loc on.
  function QuantifiedCode(code: seq<byte>, loc: nat, q: Quant): seq<byte>
    requires loc <= |code|
  {
    match q
    case Star => Repeated(code, loc, true, true)
    case Plus => Repeated(code, loc, false, true)
    case Quest => Repeated(code, loc, true, false)
    case Interval(lo, hi) => Counted(code, loc, lo, hi)
  }

  /** Quantifying a block of any code - a group with jumps of its own, say - puts the code of the
      quantifier around it, and the block itself is moved unchanged. */
  lemma QuantifiedBlock(code: seq<byte>, loc: nat, a: seq<byte>, q: Quant)
    requires loc <= |code| && code[loc..] == a
    ensures QuantifiedCode(code, loc, q) == code[..loc] + RepCode(a, q)
  {
    hide Repeated, Counted, RepCode;
    match q
    case Star => RepeatCode(code, loc, a, true, true);
    case Plus => RepeatCode(code, loc, a, false, true);
    case Quest => RepeatCode(code, loc, a, true, false);
    case Interval(lo, hi) => IntervalCode(code, loc, a, lo, hi);
  }

  lemma ManyRight(buffer: seq<byte>, front: seq<byte>, l: Level, begalt: nat, fixup: Place, laststart: Place, q: Quant,
                  literal: byte)
    requires TopRight(buffer, front, l, begalt, fixup, laststart) && laststart.At? && WfStep(Quantify(q, literal))
    ensures laststart.at <= |buffer|
    ensures TopRight(QuantifiedCode(buffer, laststart.at, q), front, GrowMany(l, q, literal), begalt, fixup, laststart)
  {
    hide BlocksCode, NodeCodes, QuantifiedCode, RepCode;
    var l' := GrowMany(l, q, literal);
    assert DoneCode(l') == DoneCode(l);
    assert Code(l'.last) == RepCode(Code(l.last), q);
    assert buffer[..laststart.at] == front + (DoneCode(l) + Code(l.init)) && buffer[laststart.at..] == Code(l.last);
    QuantifiedBlock(buffer, laststart.at, Code(l.last), q);
  }

  // The code after `\|`: a jump inserted before the alternative, the one past the alternative before it
  // stored, and space for the next one.
  function BarredCode(code: seq<byte>, begalt: nat, fixup: Place): seq<byte>
    requires begalt <= |code| && (fixup.At? ==> fixup.at + 3 <= |code|)
  {
    var inserted := Inserted(code, begalt, Op1(ON_FAILURE_JUMP, |code| - begalt + 3));
    (if fixup.At? then Stored(inserted, fixup.at, |inserted|) else inserted) + HOLE
  }

  // A jump_past_alt stored at loc, leading to `to`.
  function Stored(code: seq<byte>, loc: nat, to: int): seq<byte>
    requires loc + 3 <= |code|
  {
    code[..loc] + Op1(JUMP_PAST_ALT, to - loc - 3) + code[loc + 3..]
  }

  lemma BarBytes(front: seq<byte>, blocks: seq<seq<byte>>, body: seq<byte>, begalt: nat, fixup: Place)
    requires begalt == |front| + |BlocksCode(blocks, HOLE)|
    requires if blocks == [] then fixup == Nowhere else begalt >= 3 && fixup == At(begalt - 3)
    ensures BarredCode(front + BlocksCode(blocks, HOLE) + body, begalt, fixup)
            == front + BlocksCode(blocks + [body], HOLE)
  {
    hide BlocksCode, Op1;
    var (head, buffer) := (BlocksCode(blocks, HOLE), front + BlocksCode(blocks, HOLE) + body);
    var (o, fill) := (Op1(ON_FAILURE_JUMP, |body| + 3), Op1(JUMP_PAST_ALT, |body| + 3));
    BlocksSnoc(blocks, body, HOLE);
    Op1Size(ON_FAILURE_JUMP, |body| + 3);
    Op1Size(JUMP_PAST_ALT, |body| + 3);
    BlocksLength(blocks, HOLE, fill);
    assert buffer[..begalt] == front + head && buffer[begalt..] == body;
    var inserted := Inserted(buffer, begalt, o);
    assert inserted == front + (head + (o + body));
    if blocks == [] {
      NoBlocks(blocks, HOLE, fill);
      assert inserted + HOLE == front + (o + (body + HOLE));
    } else {
      FillBehind(front, head, o + body, fill, inserted);
      var x := head[..|head| - 3];
      assert Stored(inserted, fixup.at, |inserted|) == front + (x + fill + (o + body));
      assert front + (x + fill + (o + body)) + HOLE == front + (x + fill + (o + (body + HOLE)));
    }
  }

  lemma BarRight(buffer: seq<byte>, front: seq<byte>, l: Level, begalt: nat, fixup: Place, laststart: Place)
    requires TopRight(buffer, front, l, begalt, fixup, laststart)
    ensures begalt <= |buffer| && (fixup.At? ==> fixup.at + 3 <= |buffer|)
    ensures var code := BarredCode(buffer, begalt, fixup);
            |code| >= 3 && TopRight(code, front, GrowBar(l), |code|, At(|code| - 3), Nowhere)
  {
    hide BlocksCode, BarredCode;
    var (l', body) := (GrowBar(l), Code(l.init) + Code(l.last));
    assert WfNode(Cat(l.init, l.last)) && Code(Cat(l.init, l.last)) == body;
    assert NodeCodes(l'.done) == NodeCodes(l.done) + [body];
    assert buffer == front + DoneCode(l) + body;
    BarBytes(front, NodeCodes(l.done), body, begalt, fixup);
    BlocksLength(NodeCodes(l'.done), HOLE, HOLE);
    assert Code(Empty) == [];
    assert LevelCode(l') == DoneCode(l');
  }

  lemma NoBlocks(blocks: seq<seq<byte>>, hole: seq<byte>, hole': seq<byte>)
    ensures blocks == [] ==> BlocksCode(blocks, hole) == BlocksCode(blocks, hole') == []
  {
  }

  lemma FillBehind(front: seq<byte>, head: seq<byte>, tail: seq<byte>, fill: seq<byte>, whole: seq<byte>)
    requires |head| >= 3 && |fill| == 3 && whole == front + (head + tail)
    ensures whole[..|front| + |head| - 3] + fill + whole[|front| + |head|..]
            == front + (head[..|head| - 3] + fill + tail)
  {
    assert whole[|front| + |head|..] == tail;
    assert whole[..|front| + |head| - 3] == front + head[..|head| - 3];
  }

  // ---------- What insertion does to jumps ----------

  // Where what stood at a stands after k bytes are inserted at loc.
  function Moved(a: int, loc: nat, k: nat): int { if a < loc then a else a + k }

  /** A relative address survives the insertion of code - it still denotes the instruction it denoted -
      exactly when the jump does not cross the place of insertion. One that led to that very place leads to
      what is inserted there. */
  lemma InsertionKeepsJump(code: seq<byte>, loc: nat, x: seq<byte>, p: nat)
    requires loc <= |code| && x != [] && p + 2 < |code| && (p + 3 <= loc || loc <= p)
    ensures var (code', p') := (Inserted(code, loc, x), Moved(p, loc, |x|));
            && p' + 2 < |code'| && code'[p'] == code[p]
            && (Target(code', p') == Moved(Target(code, p), loc, |x|) <==> (p < loc <==> Target(code, p) < loc))
            && (p < loc && Target(code, p) == loc ==> Target(code', p') == loc)
  {
    var (code', p') := (Inserted(code, loc, x), Moved(p, loc, |x|));
    assert code'[p' + 1] == code[p + 1] && code'[p' + 2] == code[p + 2];
    assert NumAt(code', p' + 1) == NumAt(code, p + 1);
  }

  // ---------- Closing a group ----------

  lemma {:induction false} AltsAre(done: seq<Node>, cur: Node)
    requires WfNodes(done) && WfNode(cur) && !cur.Either?
    ensures WfNode(Alts(done, cur)) && (Alts(done, cur).Either? <==> done != [])
    ensures Code(Alts(done, cur)) == BlocksCode(NodeCodes(done), Op1(JUMP_PAST_ALT, |Code(cur)|)) + Code(cur)
    decreases |done|
  {
    hide Op1, Code;
    if done != [] {
      var (x, rest, y) := (done[0], done[1..], Alts(done[1..], cur));
      AltsAre(rest, cur);
      EitherIs(Either(x, y));
      PastIs(y);
      var blocks := NodeCodes(done);
      assert blocks[1..] == NodeCodes(rest) && blocks[0] == Code(x);
      var fill := Op1(JUMP_PAST_ALT, |Code(cur)|);
      var (o, h) := (Op1(ON_FAILURE_JUMP, |Code(x)| + 3), Op1(JUMP_PAST_ALT, PastRel(y)));
      if |done| == 1 {
        assert BlocksCode(blocks, fill) == o + (Code(x) + fill);
        NoBlocks(blocks[1..], fill, fill);
        Joined(o, Code(x), fill, [], Code(cur));
      } else {
        var more := BlocksCode(blocks[1..], fill);
        assert PastRel(y) == |blocks[1]| + 3;
        assert BlocksCode(blocks, fill) == o + (Code(x) + (h + more)) by { Seq4(o, Code(x), h, more); }
        Joined(o, Code(x), h, more, Code(cur));
      }
    }
  }

  lemma Joined(a: seq<byte>, b: seq<byte>, c: seq<byte>, d: seq<byte>, e: seq<byte>)
    ensures a + b + c + (d + e) == (a + (b + (c + d))) + e
    ensures d == [] ==> a + b + c + e == (a + (b + c)) + e
  {
  }

  // The code after `\)`: push_dummy_failure after the last alternative, if there are several, with the jump
  // past the one before it stored; the count of inner groups; and the stop marker.
  function ClosedCode(code: seq<byte>, fixup: Place, innerAt: nat, reg: byte, inner: byte): seq<byte>
    requires innerAt < |code| && (fixup.At? ==> fixup.at + 3 <= |code|)
  {
    var ended := if fixup.At? then Stored(code + [PUSH_DUMMY_FAILURE], fixup.at, |code|) else code;
    ended[innerAt := inner] + [STOP_MEMORY, reg, inner]
  }

  lemma CloseBytes(front: seq<byte>, reg: byte, inner: byte, blocks: seq<seq<byte>>, body: seq<byte>, fixup: Place)
    requires var begalt := |front| + 3 + |BlocksCode(blocks, HOLE)|;
             if blocks == [] then fixup == Nowhere else fixup == At(begalt - 3)
    ensures var code := front + [START_MEMORY, reg, 0] + BlocksCode(blocks, HOLE) + body;
            && (fixup.At? ==> fixup.at + 3 <= |code|)
            && ClosedCode(code, fixup, |front| + 2, reg, inner)
               == front + ([START_MEMORY, reg, inner] + (BlocksCode(blocks, Op1(JUMP_PAST_ALT, |body|)) + body)
                           + (if blocks != [] then [PUSH_DUMMY_FAILURE] else []) + [STOP_MEMORY, reg, inner])
  {
    hide BlocksCode, Op1;
    var (start, head, fill) := (front + [START_MEMORY, reg, 0], BlocksCode(blocks, HOLE), Op1(JUMP_PAST_ALT, |body|));
    var code := start + head + body;
    Op1Size(JUMP_PAST_ALT, |body|);
    BlocksLength(blocks, HOLE, fill);
    if blocks == [] {
      NoBlocks(blocks, HOLE, fill);
      Patched(front, reg, inner, body);
      assert code == start + body;
      assert [START_MEMORY, reg, inner] + body + [] == [START_MEMORY, reg, inner] + body && [] + body == body;
    } else {
      var (x, whole) := (head[..|head| - 3], code + [PUSH_DUMMY_FAILURE]);
      assert whole == start + (head + (body + [PUSH_DUMMY_FAILURE]));
      FillBehind(start, head, body + [PUSH_DUMMY_FAILURE], fill, whole);
      var ended := Stored(whole, fixup.at, |code|);
      assert ended == start + (x + fill + (body + [PUSH_DUMMY_FAILURE]));
      Patched(front, reg, inner, x + fill + (body + [PUSH_DUMMY_FAILURE]));
      assert x + fill + (body + [PUSH_DUMMY_FAILURE]) == (x + fill + body) + [PUSH_DUMMY_FAILURE];
    }
  }

  lemma Patched(front: seq<byte>, reg: byte, inner: byte, rest: seq<byte>)
    ensures (front + [START_MEMORY, reg, 0] + rest)[|front| + 2 := inner] == front + ([START_MEMORY, reg, inner] + rest)
  {
  }

  lemma CatCode(x: Node, y: Node)
    requires WfNode(x) && WfNode(y) && !x.Either? && !y.Either?
    ensures WfNode(Cat(x, y)) && Code(Cat(x, y)) == Code(x) + Code(y)
  {
  }

  // The group as one more thing of the level around it.
  lemma GrownGroup(outer: Level, l: Level, inner: byte)
    requires WfLevel(outer) && WfLevel(l)
    ensures WfLevel(GrowGroup(outer, l, inner)) && DoneCode(GrowGroup(outer, l, inner)) == DoneCode(outer)
    ensures Code(GrowGroup(outer, l, inner).init) == Code(outer.init) + Code(outer.last)
    ensures var body := Code(l.init) + Code(l.last);
            Code(GrowGroup(outer, l, inner).last) ==
            [START_MEMORY, l.reg, inner] + (BlocksCode(NodeCodes(l.done), Op1(JUMP_PAST_ALT, |body|)) + body)
            + (if l.done != [] then [PUSH_DUMMY_FAILURE] else []) + [STOP_MEMORY, l.reg, inner]
  {
    hide Code, BlocksCode, Op1;
    CatCode(outer.init, outer.last);
    CatCode(l.init, l.last);
    AltsAre(l.done, Cat(l.init, l.last));
    GroupIs(GrowGroup(outer, l, inner).last);
  }

  lemma CloseRight(buffer: seq<byte>, front: seq<byte>, outer: Level, l: Level, begalt: nat, fixup: Place,
                   laststart: Place, inner: byte)
    requires WfLevel(outer)
    requires TopRight(buffer, front + LevelCode(outer) + [START_MEMORY, l.reg, 0], l, begalt, fixup, laststart)
    ensures var at := |front| + |LevelCode(outer)|;
            && at + 2 < |buffer| && (fixup.At? ==> fixup.at + 3 <= |buffer|)
            && WfLevel(GrowGroup(outer, l, inner))
            && ClosedCode(buffer, fixup, at + 2, l.reg, inner) == front + LevelCode(GrowGroup(outer, l, inner))
            && LastAt(front, GrowGroup(outer, l, inner), At(at))
            && DoneCode(GrowGroup(outer, l, inner)) == DoneCode(outer)
  {
    hide BlocksCode, ClosedCode, NodeCodes, Op1, Code, WfNode;
    var (outer', before, body) := (GrowGroup(outer, l, inner), front + LevelCode(outer), Code(l.init) + Code(l.last));
    assert buffer == before + [START_MEMORY, l.reg, 0] + DoneCode(l) + body;
    CloseBytes(before, l.reg, inner, NodeCodes(l.done), body, fixup);
    GrownGroup(outer, l, inner);
    assert LevelCode(outer') == LevelCode(outer) + Code(outer'.last);
  }

  // ---------- All levels ----------

  lemma {:induction false} BeforeSame(ls: seq<Level>, ls': seq<Level>, j: nat)
    requires j < |ls| && j < |ls'| && WfLevels(ls) && WfLevels(ls') && ls'[..j] == ls[..j] && ls'[j].reg == ls[j].reg
    ensures Before(ls', j) == Before(ls, j)
    decreases j
  {
    hide LevelCode, WfLevel;
    if j > 0 {
      assert ls'[j - 1] == ls'[..j][j - 1] == ls[..j][j - 1] == ls[j - 1];
      assert ls'[..j - 1] == ls'[..j][..j - 1] && ls[..j - 1] == ls[..j][..j - 1];
      BeforeSame(ls, ls', j - 1);
    }
  }

  // The frames below hold whatever happens in the innermost level.
  lemma FramesSame(stack: seq<Frame>, stack': seq<Frame>, ls: seq<Level>, ls': seq<Level>, n: nat)
    requires FramesRight(stack, ls) && WfLevels(ls') && n <= |stack| && n <= |stack'| && n < |ls'|
    requires stack'[..n] == stack[..n] && ls'[..n] == ls[..n] && ls'[n].reg == ls[n].reg
    ensures Before(ls', n) == Before(ls, n)
    ensures forall j: nat | j < n :: FrameRight(stack'[j], ls', j)
  {
    hide LevelCode, WfLevel, Points, Before;
    BeforeSame(ls, ls', n);
    forall j: nat | j < n ensures FrameRight(stack'[j], ls', j) {
      assert stack'[j] == stack'[..n][j] == stack[j] && ls'[j] == ls'[..n][j] == ls[j];
      assert j + 1 < n ==> ls'[j + 1] == ls'[..n][j + 1] == ls[j + 1];
      assert ls'[..j] == ls'[..n][..j] && ls[..j] == ls[..n][..j];
      BeforeSame(ls, ls', j);
      assert FrameRight(stack[j], ls, j);
    }
  }

  ghost predicate Laid(buffer: seq<byte>, begalt: nat, fixup: Place, laststart: Place, regnum: nat, stack: seq<Frame>,
                       g: Growth) {
    && FramesRight(stack, g.levels) && g.count == regnum <= MAX_REGNUM
    && TopRight(buffer, Before(g.levels, |stack|), g.levels[|stack|], begalt, fixup, laststart)
    && forall j | 0 <= j < |g.levels| :: g.levels[j].reg <= regnum
  }

  // A change of the innermost level.
  lemma TopLaid(buffer: seq<byte>, begalt: nat, fixup: Place, laststart: Place, regnum: nat, stack: seq<Frame>,
                g: Growth,
                buffer': seq<byte>, begalt': nat, fixup': Place, laststart': Place, l: Level)
    requires Laid(buffer, begalt, fixup, laststart, regnum, stack, g) && l.reg == g.levels[|stack|].reg
    requires TopRight(buffer', Before(g.levels, |stack|), l, begalt', fixup', laststart')
    ensures Laid(buffer', begalt', fixup', laststart', regnum, stack, g.(levels := WithTop(g.levels, l)))
  {
    hide LevelCode, WfLevel, Points, Before, LastAt, FrameRight;
    assert WfLevel(l) by {
      assert TopRight(buffer', Before(g.levels, |stack|), l, begalt', fixup', laststart');
      TopWf(buffer', Before(g.levels, |stack|), l, begalt', fixup', laststart');
    }
    FramesSame(stack, stack, g.levels, WithTop(g.levels, l), |stack|);
  }

  lemma TopWf(buffer: seq<byte>, front: seq<byte>, l: Level, begalt: nat, fixup: Place, laststart: Place)
    requires TopRight(buffer, front, l, begalt, fixup, laststart)
    ensures WfLevel(l)
  {
  }

  lemma OpenLaid(buffer: seq<byte>, begalt: nat, fixup: Place, laststart: Place, regnum: nat, stack: seq<Frame>,
                 g: Growth)
    requires Laid(buffer, begalt, fixup, laststart, regnum, stack, g) && regnum < MAX_REGNUM
    ensures Growable(g, Open)
    ensures Laid(buffer + [START_MEMORY, regnum + 1, 0], |buffer| + 3, Nowhere, Nowhere, regnum + 1,
                 stack + [Frame(begalt, fixup, |buffer| + 2, |buffer|, regnum + 1)], Grow(g, Open))
  {
    hide LevelCode, WfLevel, Before, FrameRight, DoneCode, TopRight;
    var (f, ls, n) := (Frame(begalt, fixup, |buffer| + 2, |buffer|, regnum + 1), g.levels, |stack|);
    var (stack', ls') := (stack + [f], Grow(g, Open).levels);
    NewLevel(regnum + 1);
    FramesSame(stack, stack', ls, ls', n);
    NewFrame(buffer, begalt, fixup, laststart, ls, n, ls', f);
    forall j: nat | j < |stack'| ensures FrameRight(stack'[j], ls', j) { }
  }

  lemma NewFrame(buffer: seq<byte>, begalt: nat, fixup: Place, laststart: Place, ls: seq<Level>, n: nat,
                 ls': seq<Level>, f: Frame)
    requires WfLevels(ls) && WfLevels(ls') && n + 1 == |ls| && n + 2 == |ls'| && ls'[n] == ls[n]
    requires Before(ls', n) == Before(ls, n)
    requires TopRight(buffer, Before(ls, n), ls[n], begalt, fixup, laststart)
    requires f == Frame(begalt, fixup, |buffer| + 2, |buffer|, ls'[n + 1].reg)
    requires ls'[n + 1] == Level(f.regnum, [], Empty, Empty, false)
    ensures FrameRight(f, ls', n)
    ensures TopRight(buffer + [START_MEMORY, f.regnum, 0], Before(ls', n + 1), ls'[n + 1],
                     |buffer| + 3, Nowhere, Nowhere)
  {
    hide LevelCode, DoneCode, WfLevel;
    NewLevel(f.regnum);
    var front := Before(ls, n) + LevelCode(ls[n]) + [START_MEMORY, f.regnum, 0];
    assert Before(ls', n + 1) == front;
    assert front + [] == front;
  }

  lemma NewLevel(reg: byte)
    ensures var l := Level(reg, [], Empty, Empty, false); WfLevel(l) && LevelCode(l) == [] && DoneCode(l) == []
  {
  }

  lemma CloseLaid(buffer: seq<byte>, begalt: nat, fixup: Place, laststart: Place, regnum: nat, stack: seq<Frame>,
                  g: Growth)
    requires Laid(buffer, begalt, fixup, laststart, regnum, stack, g) && stack != []
    ensures Growable(g, Close) && stack[|stack| - 1].regnum <= regnum <= MAX_REGNUM
    ensures var (n, f) := (|stack| - 1, stack[|stack| - 1]);
            && f.innerGroupOffset < |buffer| && (fixup.At? ==> fixup.at + 3 <= |buffer|)
            && Laid(ClosedCode(buffer, fixup, f.innerGroupOffset, f.regnum, regnum - f.regnum), f.begaltOffset, f.fixup,
                    At(f.laststartOffset), regnum, stack[..n], Grow(g, Close))
  {
    hide LevelCode, WfLevel, ClosedCode, DoneCode;
    var (n, f, ls) := (|stack| - 1, stack[|stack| - 1], g.levels);
    assert FrameRight(f, ls, n);
    var (outer, l, inner) := (ls[n], ls[n + 1], regnum - f.regnum);
    CloseRight(buffer, Before(ls, n), outer, l, begalt, fixup, laststart, inner);
    var ls' := Grow(g, Close).levels;
    FramesSame(stack, stack[..n], ls, ls', n);
    assert ls'[n] == GrowGroup(outer, l, inner);
  }

  // ---------- The compiler ----------

  class GroupCompiler {
    var buffer: seq<byte>
    var begalt: nat
    var laststart: Place
    var fixupAltJump: Place
    var regnum: nat
    var stack: seq<Frame>

    ghost var grown: Growth

    ghost predicate Valid()
      reads this
    {
      Laid(buffer, begalt, fixupAltJump, laststart, regnum, stack, grown)
    }

    constructor ()
      ensures Valid() && grown == Seed() && stack == [] && regnum == 0
    {
      buffer, begalt, laststart, fixupAltJump, regnum, stack := [], 0, Nowhere, Nowhere, 0, [];
      grown := Seed();
      new;
      NewLevel(0);
      assert Before(grown.levels, 0) == [];
    }

    // A literal run, a single character or an anchor; anchors cannot be repeated.
    method EmitPiece(p: Piece)
      requires Valid() && WfStep(Put(p))
      modifies this
      ensures Valid() && grown == Grow(old(grown), Put(p)) && |stack| == |old(stack)| && regnum == old(regnum)
    {
      hide Laid, TopRight;
      Opened(buffer, begalt, fixupAltJump, laststart, regnum, stack, grown);
      ghost var (n, l) := (|stack|, grown.levels[|stack|]);
      PutRight(buffer, Before(grown.levels, n), l, begalt, fixupAltJump, laststart, p);
      TopLaid(buffer, begalt, fixupAltJump, laststart, regnum, stack, grown, buffer + PieceCode(p), begalt,
              fixupAltJump,
              if p.Anchor? then laststart else At(|buffer|), GrowPut(l, p));
      if !p.Anchor? { laststart := At(|buffer|); }
      buffer := buffer + PieceCode(p);
      grown := Grow(grown, Put(p));
    }

    // With nothing to repeat, the operator is a literal.
    method EmitQuantifier(q: Quant, literal: byte)
      requires Valid() && WfStep(Quantify(q, literal))
      modifies this
      ensures Valid() && grown == Grow(old(grown), Quantify(q, literal)) && |stack| == |old(stack)|
      ensures regnum == old(regnum)
    {
      hide Laid, TopRight, QuantifiedCode;
      Opened(buffer, begalt, fixupAltJump, laststart, regnum, stack, grown);
      ghost var (n, l) := (|stack|, grown.levels[|stack|]);
      SomeLast(buffer, begalt, fixupAltJump, laststart, regnum, stack, grown);
      if laststart.Nowhere? {
        EmitPiece(Exact([literal]));
        return;
      }
      ManyRight(buffer, Before(grown.levels, n), l, begalt, fixupAltJump, laststart, q, literal);
      TopLaid(buffer, begalt, fixupAltJump, laststart, regnum, stack, grown, QuantifiedCode(buffer, laststart.at, q),
              begalt,
              fixupAltJump, laststart, GrowMany(l, q, literal));
      buffer := QuantifiedCode(buffer, laststart.at, q);
      grown := Grow(grown, Quantify(q, literal));
    }

    // `\|`.
    method EmitBar()
      requires Valid()
      modifies this
      ensures Valid() && grown == Grow(old(grown), Bar) && |stack| == |old(stack)| && regnum == old(regnum)
    {
      hide Laid, TopRight, BarredCode, WfLevel, Before, WfLevels;
      Opened(buffer, begalt, fixupAltJump, laststart, regnum, stack, grown);
      ghost var (n, l) := (|stack|, grown.levels[|stack|]);
      BarRight(buffer, Before(grown.levels, n), l, begalt, fixupAltJump, laststart);
      ghost var code := BarredCode(buffer, begalt, fixupAltJump);
      TopLaid(buffer, begalt, fixupAltJump, laststart, regnum, stack, grown, code, |code|, At(|code| - 3), Nowhere,
              GrowBar(l));
      buffer := BarredCode(buffer, begalt, fixupAltJump);
      fixupAltJump := At(|buffer| - 3);
      laststart, begalt := Nowhere, |buffer|;
      grown := Grow(grown, Bar);
    }

    // `\(`.
    method EmitOpen()
      requires Valid() && regnum < MAX_REGNUM
      modifies this
      ensures Valid() && Growable(old(grown), Open) && grown == Grow(old(grown), Open)
      ensures |stack| == |old(stack)| + 1 && regnum == old(regnum) + 1
    {
      hide Laid;
      OpenLaid(buffer, begalt, fixupAltJump, laststart, regnum, stack, grown);
      regnum := regnum + 1;
      stack := stack + [Frame(begalt, fixupAltJump, |buffer| + 2, |buffer|, regnum)];
      buffer := buffer + [START_MEMORY, regnum, 0];
      fixupAltJump, laststart, begalt := Nowhere, Nowhere, |buffer|;
      grown := Grow(grown, Open);
    }

    // `\)`. False is REG_ERPAREN.
    method EmitClose() returns (ok: bool)
      requires Valid()
      modifies this
      ensures Valid() && regnum == old(regnum) && (ok <==> old(stack) != [])
      ensures ok ==> Growable(old(grown), Close) && grown == Grow(old(grown), Close) && |stack| == |old(stack)| - 1
      ensures !ok ==> grown == old(grown) && stack == old(stack)
    {
      hide Laid, ClosedCode;
      if stack == [] { return false; }
      ok := true;
      CloseLaid(buffer, begalt, fixupAltJump, laststart, regnum, stack, grown);
      var f := stack[|stack| - 1];
      buffer := ClosedCode(buffer, fixupAltJump, f.innerGroupOffset, f.regnum, regnum - f.regnum);
      begalt, fixupAltJump, laststart := f.begaltOffset, f.fixup, At(f.laststartOffset);
      stack := stack[..|stack| - 1];
      grown := Grow(grown, Close);
    }
  }

  lemma Opened(buffer: seq<byte>, begalt: nat, fixup: Place, laststart: Place, regnum: nat, stack: seq<Frame>,
               g: Growth)
    requires Laid(buffer, begalt, fixup, laststart, regnum, stack, g)
    ensures |g.levels| == |stack| + 1 && WfLevels(g.levels)
    ensures TopRight(buffer, Before(g.levels, |stack|), g.levels[|stack|], begalt, fixup, laststart)
  {
  }

  lemma SomeLast(buffer: seq<byte>, begalt: nat, fixup: Place, laststart: Place, regnum: nat, stack: seq<Frame>,
                 g: Growth)
    requires Laid(buffer, begalt, fixup, laststart, regnum, stack, g)
    ensures g.levels[|stack|].some <==> laststart.At?
  {
  }

  // ---------- A whole pattern ----------

  // The end of the pattern: the jump past the last alternative but one.
  lemma FinishRight(buffer: seq<byte>, begalt: nat, fixup: Place, laststart: Place, regnum: nat, stack: seq<Frame>,
                    g: Growth)
    requires Laid(buffer, begalt, fixup, laststart, regnum, stack, g) && stack == []
    ensures g.levels != [] && WfNode(LevelTree(g.levels[0])) && (fixup.At? ==> fixup.at + 3 <= |buffer|)
    ensures (if fixup.At? then Stored(buffer, fixup.at, |buffer|) else buffer) == Code(LevelTree(g.levels[0]))
  {
    hide Code, BlocksCode, Op1;
    var l := g.levels[0];
    assert WfLevel(l);
    CatCode(l.init, l.last);
    AltsAre(l.done, Cat(l.init, l.last));
    var (head, body) := (DoneCode(l), Code(l.init) + Code(l.last));
    var fill := Op1(JUMP_PAST_ALT, |body|);
    Op1Size(JUMP_PAST_ALT, |body|);
    BlocksLength(NodeCodes(l.done), HOLE, fill);
    assert buffer == [] + (head + body);
    if l.done == [] {
      NoBlocks(NodeCodes(l.done), HOLE, fill);
    } else {
      FillBehind([], head, body, fill, buffer);
    }
  }

  /** A whole pattern with at most 255 groups: it is accepted exactly when its parentheses balance, and then
      the code laid out is that of its tree, which reads back as the pattern. */
  method CompileGroups(steps: seq<Step>) returns (ok: bool, code: seq<byte>)
    requires (forall k | 0 <= k < |steps| :: WfStep(steps[k])) && Opens(steps, |steps|) <= MAX_REGNUM
    ensures ok <==> Balanced(steps)
    ensures ok ==> WfNode(StepsTree(steps)) && code == Code(StepsTree(steps))
    ensures ok ==> Read(StepsTree(steps)) == Plainly(steps, |steps|) && Tight(StepsTree(steps))
  {
    hide Laid, Grow, Growable, LevelTree, Code;
    var c := new GroupCompiler();
    var i: nat := 0;
    while i < |steps|
      invariant i <= |steps| && c.Valid() && fresh(c) && c.grown == After(steps, i)
      invariant c.regnum == Opens(steps, i) && |c.stack| == Opens(steps, i) - Closes(steps, i)
      invariant forall n | 0 <= n <= i :: Closes(steps, n) <= Opens(steps, n)
    {
      OpensGrow(steps, i + 1, |steps|);
      if !steps[i].Open? && !steps[i].Close? { Growing(c.grown, steps[i]); }
      match steps[i] {
        case Put(p) => c.EmitPiece(p);
        case Quantify(q, literal) => c.EmitQuantifier(q, literal);
        case Bar => c.EmitBar();
        case Open => c.EmitOpen();
        case Close =>
          var closes := c.EmitClose();
          if !closes { return false, []; }
      }
      i := i + 1;
    }
    if c.stack != [] { return false, []; }
    FinishRight(c.buffer, c.begalt, c.fixupAltJump, c.laststart, c.regnum, c.stack, c.grown);
    ok := true;
    TreeReadsBack(steps);
    code := if c.fixupAltJump.At? then Stored(c.buffer, c.fixupAltJump.at, |c.buffer|) else c.buffer;
  }

  /** What is laid out for a pattern with groups that does not end with an empty alternative: jumps the
      exploration of re_compile_fastmap can follow, and loops entered only from the front. */
  lemma LaidOutFlows(steps: seq<Step>)
    requires WfNode(StepsTree(steps)) && |Code(StepsTree(steps))| <= MAX_NUMBER && !Trailing(StepsTree(steps))
    ensures Structured(Code(StepsTree(steps)), Starts(StepsTree(steps), 0))
  {
    ShortCodeFits(StepsTree(steps));
    CompiledFlows(StepsTree(steps));
  }
}
