/**
 regex_compile's output side: bytes are appended, opcodes are inserted in the middle of code already
 emitted, and relative jumps are stored before their targets are final.
 */
module RegexBuild {
  import opened Bytes
  import opened RegexAst
  import opened RegexCode
  import opened RegexLayout
  import opened RegexGreedy
  import opened RegexTrace

  // ---------- insert_op1, insert_op2, store_op1, store_op2 ----------

  method StoreOp1(buf: array<byte>, op: byte, loc: nat, arg: int)
    requires loc + 3 <= buf.Length
    modifies buf
    ensures buf[..] == old(buf[..loc]) + Op1(op, arg) + old(buf[loc + 3..])
  {
    buf[loc] := op;
    buf[loc + 1], buf[loc + 2] := Lo(arg), Hi(arg);
  }

  method StoreOp2(buf: array<byte>, op: byte, loc: nat, arg1: int, arg2: int)
    requires loc + 5 <= buf.Length
    modifies buf
    ensures buf[..] == old(buf[..loc]) + Op2(op, arg1, arg2) + old(buf[loc + 5..])
  {
    buf[loc] := op;
    buf[loc + 1], buf[loc + 2] := Lo(arg1), Hi(arg1);
    buf[loc + 3], buf[loc + 4] := Lo(arg2), Hi(arg2);
  }

  // Moves buf[loc..end] up by n bytes, last byte first.
  method MoveUp(buf: array<byte>, loc: nat, end: nat, n: nat)
    requires loc <= end && end + n <= buf.Length && n > 0
    modifies buf
    ensures buf[..loc] == old(buf[..loc]) && buf[loc + n..end + n] == old(buf[loc..end])
    ensures buf[end + n..] == old(buf[end + n..])
  {
    var pfrom, pto := end, end + n;
    while pfrom != loc
      invariant loc <= pfrom <= end && pto == pfrom + n
      invariant buf[..pfrom] == old(buf[..pfrom]) && buf[end + n..] == old(buf[end + n..])
      invariant buf[pto..end + n] == old(buf[pfrom..end])
      decreases pfrom
    {
      pto, pfrom := pto - 1, pfrom - 1;
      assert buf[pfrom] == buf[..pfrom + 1][pfrom];
      buf[pto] := buf[pfrom];
      assert buf[pto..end + n] == [buf[pto]] + buf[pto + 1..end + n];
    }
  }

  method InsertOp1(buf: array<byte>, op: byte, loc: nat, arg: int, end: nat)
    requires loc <= end && end + 3 <= buf.Length
    modifies buf
    ensures buf[..end + 3] == old(buf[..loc]) + Op1(op, arg) + old(buf[loc..end])
    ensures buf[end + 3..] == old(buf[end + 3..])
  {
    MoveUp(buf, loc, end, 3);
    StoreOp1(buf, op, loc, arg);
  }

  method InsertOp2(buf: array<byte>, op: byte, loc: nat, arg1: int, arg2: int, end: nat)
    requires loc <= end && end + 5 <= buf.Length
    modifies buf
    ensures buf[..end + 5] == old(buf[..loc]) + Op2(op, arg1, arg2) + old(buf[loc..end])
    ensures buf[end + 5..] == old(buf[end + 5..])
  {
    MoveUp(buf, loc, end, 5);
    StoreOp2(buf, op, loc, arg1, arg2);
  }

  // ---------- The code emitted so far ----------

  // Finished alternatives; the jump_past_alt of the last of them is a hole of three bytes, to be
  // stored when the length of the next alternative is known.
  function BlocksCode(blocks: seq<seq<byte>>, hole: seq<byte>): seq<byte> {
    if blocks == [] then []
    else
      Op1(ON_FAILURE_JUMP, |blocks[0]| + 3)
      + (blocks[0]
         + (if |blocks| == 1 then hole else Op1(JUMP_PAST_ALT, |blocks[1]| + 3) + BlocksCode(blocks[1..], hole)))
  }

  ghost function Codes(bs: seq<Branch>): (r: seq<seq<byte>>)
    requires forall k | 0 <= k < |bs| :: WfBranch(bs[k])
    ensures |r| == |bs| && forall k | 0 <= k < |bs| :: r[k] == BranchCode(bs[k])
  {
    seq(|bs|, k requires 0 <= k < |bs| => BranchCode(bs[k]))
  }

  ghost function HeadCode(done: seq<Branch>, hole: seq<byte>): seq<byte>
    requires forall k | 0 <= k < |done| :: WfBranch(done[k])
  {
    BlocksCode(Codes(done), hole)
  }

  // The finished pattern.
  ghost function PatternCode(bs: seq<Branch>): seq<byte>
    requires WfPattern(bs)
  {
    var n := |bs| - 1;
    HeadCode(bs[..n], Op1(JUMP_PAST_ALT, |BranchCode(bs[n])|)) + BranchCode(bs[n])
  }

  lemma BranchSnoc(b: Branch, p: Piece)
    requires WfBranch(b) && WfPiece(p)
    ensures WfBranch(b + [p]) && BranchCode(b + [p]) == BranchCode(b) + PieceCode(p)
  {
    TermsWf(b);
    TermsWf([p]);
    assert Terms(b + [p]) == Terms(b) + Terms([p]);
    ItemsCodeConcat(Terms(b), Terms([p]));
    assert Terms([p])[1..] == [];
    assert ItemsCode(Terms([p])) == ItemCode(Terms([p])[0]) + ItemsCode([]);
  }

  lemma Seq4(a: seq<byte>, b: seq<byte>, c: seq<byte>, d: seq<byte>)
    ensures a + (b + (c + d)) == (a + (b + c)) + d
  {
  }

  lemma Seq5(a: seq<byte>, b: seq<byte>, c: seq<byte>, d: seq<byte>, e: seq<byte>)
    ensures a + (b + (c + (d + e))) == (a + (b + (c + d))) + e
  {
  }

  // Inserting the on_failure_jump before the current alternative and filling the hole.
  lemma {:induction false} BlocksSnoc(blocks: seq<seq<byte>>, cur: seq<byte>, hole: seq<byte>)
    ensures BlocksCode(blocks + [cur], hole) ==
            BlocksCode(blocks, Op1(JUMP_PAST_ALT, |cur| + 3)) + (Op1(ON_FAILURE_JUMP, |cur| + 3) + (cur + hole))
    decreases |blocks|
  {
    hide Op1;
    var all := blocks + [cur];
    var z := Op1(ON_FAILURE_JUMP, |cur| + 3) + (cur + hole);
    var fill := Op1(JUMP_PAST_ALT, |cur| + 3);
    if blocks == [] {
      assert all == [cur];
    } else {
      var x, y := Op1(ON_FAILURE_JUMP, |blocks[0]| + 3), blocks[0];
      BlocksSnoc(blocks[1..], cur, hole);
      assert all[1..] == blocks[1..] + [cur] && all[0] == blocks[0];
      if |blocks| == 1 {
        assert blocks[1..] == [] && all[1] == cur;
        Seq4(x, y, fill, z);
        assert BlocksCode(blocks[1..], fill) == [];
        assert BlocksCode(all[1..], hole) == [] + z == z;
      } else {
        assert all[1] == blocks[1];
        Seq5(x, y, Op1(JUMP_PAST_ALT, |blocks[1]| + 3), BlocksCode(blocks[1..], fill), z);
      }
    }
  }

  lemma HeadSnoc(done: seq<Branch>, cur: Branch, hole: seq<byte>)
    requires WfBranch(cur) && forall k | 0 <= k < |done| :: WfBranch(done[k])
    ensures var all := done + [cur];
            && (forall k | 0 <= k < |all| :: WfBranch(all[k]))
            && HeadCode(all, hole) ==
               HeadCode(done, Op1(JUMP_PAST_ALT, |BranchCode(cur)| + 3))
               + (Op1(ON_FAILURE_JUMP, |BranchCode(cur)| + 3) + (BranchCode(cur) + hole))
  {
    hide BranchCode, Op1, WfBranch, BlocksCode;
    BlocksSnoc(Codes(done), BranchCode(cur), hole);
    assert Codes(done + [cur]) == Codes(done) + [BranchCode(cur)];
  }

  lemma {:induction false} BlocksLength(blocks: seq<seq<byte>>, hole: seq<byte>, hole': seq<byte>)
    requires |hole| == |hole'| == 3
    ensures |BlocksCode(blocks, hole)| == |BlocksCode(blocks, hole')|
    ensures blocks != [] ==> |BlocksCode(blocks, hole)| >= 3
    ensures blocks != [] ==>
              var n := |BlocksCode(blocks, hole)| - 3;
              BlocksCode(blocks, hole') == BlocksCode(blocks, hole)[..n] + hole'
    decreases |blocks|
  {
    hide Op1;
    if |blocks| == 1 {
      var x, y := Op1(ON_FAILURE_JUMP, |blocks[0]| + 3), blocks[0];
      assert BlocksCode(blocks, hole) == x + (y + hole) == x + y + hole;
      assert BlocksCode(blocks, hole') == x + (y + hole') == x + y + hole';
    } else if blocks != [] {
      BlocksLength(blocks[1..], hole, hole');
      var x, y, w := Op1(ON_FAILURE_JUMP, |blocks[0]| + 3), blocks[0], Op1(JUMP_PAST_ALT, |blocks[1]| + 3);
      assert BlocksCode(blocks, hole) == x + y + w + BlocksCode(blocks[1..], hole);
      assert BlocksCode(blocks, hole') == x + y + w + BlocksCode(blocks[1..], hole');
    }
  }

  lemma HeadLength(done: seq<Branch>, hole: seq<byte>, hole': seq<byte>)
    requires (forall k | 0 <= k < |done| :: WfBranch(done[k])) && |hole| == |hole'| == 3
    ensures |HeadCode(done, hole)| == |HeadCode(done, hole')|
    ensures done != [] ==> |HeadCode(done, hole)| >= 3
    ensures done != [] ==>
              var n := |HeadCode(done, hole)| - 3; HeadCode(done, hole') == HeadCode(done, hole)[..n] + hole'
  {
    hide BlocksCode;
    BlocksLength(Codes(done), hole, hole');
  }

  lemma PatternCons(bs: seq<Branch>)
    requires WfPattern(bs) && |bs| > 1
    ensures WfPattern(bs[1..])
    ensures var last := |bs| == 2;
            PatternCode(bs) == Op1(ON_FAILURE_JUMP, |BranchCode(bs[0])| + 3)
                               + (BranchCode(bs[0]) + Op1(JUMP_PAST_ALT, |BranchCode(bs[1])| + (if last then 0 else 3)))
                               + PatternCode(bs[1..])
  {
    hide BranchCode, Op1, WfBranch;
    var (n, rest) := (|bs| - 1, bs[1..]);
    var front := bs[..n];
    var hole := Op1(JUMP_PAST_ALT, |BranchCode(bs[n])|);
    assert front[0] == bs[0] && front[1..] == rest[..n - 1] && rest[n - 1] == bs[n];
    assert Codes(front)[1..] == Codes(front[1..]);
    var x, y := Op1(ON_FAILURE_JUMP, |BranchCode(bs[0])| + 3), BranchCode(bs[0]);
    if n == 1 {
      assert HeadCode(rest[..0], hole) == [];
      assert PatternCode(rest) == BranchCode(bs[1]);
    } else {
      assert front[1] == bs[1];
      var w, h := Op1(JUMP_PAST_ALT, |BranchCode(bs[1])| + 3), HeadCode(front[1..], hole);
      assert HeadCode(front, hole) == x + (y + (w + h));
      Seq4(x, y, w, h);
      assert PatternCode(rest) == h + BranchCode(bs[n]);
    }
  }

  /** What is emitted is the code of the items of the pattern. */
  lemma {:induction false} PatternIsItems(bs: seq<Branch>)
    requires WfPattern(bs) && JumpsFit(bs)
    ensures Linked(Flatten(bs)) && PatternCode(bs) == ItemsCode(Flatten(bs))
    decreases |bs|
  {
    hide BranchCode, Op1, WfBranch, ItemsCode, HeadCode, PatternCode, Linked;
    FlattenLinked(bs);
    if |bs| == 1 {
      SingleCode(bs);
    } else {
      PatternCons(bs);
      assert |bs[1..]| > 1 ==> JumpsFit(bs[1..]);
      PatternIsItems(bs[1..]);
      HeadOffsets(bs[0], bs[1], |bs| == 2);
      FlattenWf(bs[1..]);
      ItemsCodeConcat(Head(bs[0], bs[1], |bs| == 2), Flatten(bs[1..]));
    }
  }

  lemma FlattenWf(bs: seq<Branch>)
    requires WfPattern(bs) && Linked(Flatten(bs))
    ensures WfItems(Flatten(bs))
  {
  }

  lemma SingleCode(bs: seq<Branch>)
    requires WfPattern(bs) && |bs| == 1
    ensures WfItems(Flatten(bs)) && PatternCode(bs) == ItemsCode(Flatten(bs))
  {
    TermsWf(bs[0]);
    assert bs[..0] == [];
  }
}
