/** The state of regex_compile and the cases of its switch that emit code. */
module RegexCompiler {
  import opened Bytes
  import opened RegexAst
  import opened RegexCode
  import opened RegexGreedy
  import opened RegexLayout
  import opened RegexBuild
  import opened RegexBracket
  import opened RegexSource

  // The width of a two-byte address is what limits the buffer.
  const MAX_BUF_SIZE: nat := 0x1_0000

  // A pointer into the buffer that may be null.
  datatype Place = Nowhere | At(at: nat)

  // The code and the compiler's pointers agree with the alternatives finished (done), the one under
  // way (cur), and the three bytes kept free for a jump (hole).
  ghost predicate Built(code: seq<byte>, begalt: nat, fixup: Place, laststart: Place, pending: Place,
                        done: seq<Branch>, cur: Branch, hole: seq<byte>, lastIx: nat, pendIx: nat) {
    && (forall k | 0 <= k < |done| :: WfBranch(done[k])) && WfBranch(cur) && |hole| == 3
    && code == HeadCode(done, hole) + BranchCode(cur)
    && begalt == |HeadCode(done, hole)|
    && (done == [] ==> fixup == Nowhere) && (done != [] ==> begalt >= 3 && fixup == At(begalt - 3))
    && (laststart.At? ==> lastIx < |cur| && laststart.at == begalt + |BranchCode(cur[..lastIx])|)
    && (pending.At? ==> laststart.At?)
    && (pending.At? ==> pendIx < |cur| && cur[pendIx].Exact? && pending.at == begalt + |BranchCode(cur[..pendIx])| + 1)
  }

  // Where piece k of the current alternative stands in the code.
  lemma PieceInCode(cur: Branch, k: nat)
    requires WfBranch(cur) && k < |cur|
    ensures BranchCode(cur[..k + 1]) == BranchCode(cur[..k]) + PieceCode(cur[k])
    ensures BranchCode(cur[..k + 1]) + BranchCode(cur[k + 1..]) == BranchCode(cur)
    ensures |BranchCode(cur[k + 1..])| >= |cur| - k - 1
  {
    assert cur[..k + 1] == cur[..k] + [cur[k]];
    BranchSnoc(cur[..k], cur[k]);
    BranchJoin(cur[..k + 1], cur[k + 1..]);
    assert cur[..k + 1] + cur[k + 1..] == cur;
    BranchAtLeast(cur[k + 1..]);
  }

  lemma BranchJoin(x: Branch, y: Branch)
    requires WfBranch(x) && WfBranch(y)
    ensures WfBranch(x + y) && BranchCode(x + y) == BranchCode(x) + BranchCode(y)
  {
    TermsWf(x);
    TermsWf(y);
    assert Terms(x + y) == Terms(x) + Terms(y);
    ItemsCodeConcat(Terms(x), Terms(y));
  }

  lemma BranchAtLeast(x: Branch)
    requires WfBranch(x)
    ensures |BranchCode(x)| >= |x|
  {
    TermsWf(x);
    CodeLen(Terms(x));
    OffMonotone(Terms(x), 0, |x|);
  }

  lemma AtomPieceCode(atom: Atom)
    ensures WfPiece(AtomPiece(atom)) && PieceCode(AtomPiece(atom)) == AtomCode(atom)
  {
  }

  // Appending a piece, with laststart (and for a literal pending_exact) set to it.
  lemma BuiltPiece(code: seq<byte>, begalt: nat, fixup: Place, laststart: Place, pending: Place,
                   done: seq<Branch>, cur: Branch, hole: seq<byte>, lastIx: nat, pendIx: nat, p: Piece)
    requires Built(code, begalt, fixup, laststart, pending, done, cur, hole, lastIx, pendIx) && WfPiece(p)
    ensures Built(code + PieceCode(p), begalt, fixup, At(|code|), pending, done, cur + [p], hole, |cur|, pendIx)
    ensures Built(code + PieceCode(p), begalt, fixup, laststart, pending, done, cur + [p], hole, lastIx, pendIx)
    ensures p.Exact? ==>
              Built(code + PieceCode(p), begalt, fixup, At(|code|), At(|code| + 1), done, cur + [p], hole, |cur|, |cur|)
  {
    hide BranchCode, HeadCode, PieceCode, AtomCode;
    var cur' := cur + [p];
    BranchSnoc(cur, p);
    assert cur'[..|cur|] == cur;
    if laststart.At? { assert cur'[..lastIx] == cur[..lastIx]; }
    if pending.At? { assert cur'[..pendIx] == cur[..pendIx]; }
  }

  // The last piece and what stands before it.
  lemma LastPiece(code: seq<byte>, begalt: nat, fixup: Place, laststart: Place, pending: Place,
                  done: seq<Branch>, cur: Branch, hole: seq<byte>, lastIx: nat, pendIx: nat)
    requires Built(code, begalt, fixup, laststart, pending, done, cur, hole, lastIx, pendIx)
    requires cur != [] && laststart.At? && lastIx == |cur| - 1
    ensures laststart.at <= |code| && code[..laststart.at] == HeadCode(done, hole) + BranchCode(cur[..|cur| - 1])
    ensures code[laststart.at..] == PieceCode(cur[|cur| - 1])
  {
    hide BranchCode, HeadCode, AtomCode, RepCode, PieceCode;
    var n := |cur| - 1;
    PieceInCode(cur, n);
    assert cur[..n + 1] == cur;
  }

  // Replacing the last piece.
  lemma BuiltLast(code: seq<byte>, begalt: nat, fixup: Place, laststart: Place, pending: Place,
                  done: seq<Branch>, cur: Branch, hole: seq<byte>, lastIx: nat, pendIx: nat, p: Piece)
    requires Built(code, begalt, fixup, laststart, pending, done, cur, hole, lastIx, pendIx) && WfPiece(p)
    requires cur != [] && laststart.At? && lastIx == |cur| - 1
    ensures laststart.at <= |code|
    ensures Built(code[..laststart.at] + PieceCode(p), begalt, fixup, laststart, Nowhere,
                  done, WithLast(cur, p), hole, lastIx, 0)
  {
    hide BranchCode, HeadCode, PieceCode, AtomCode, WfPiece;
    LastPiece(code, begalt, fixup, laststart, pending, done, cur, hole, lastIx, pendIx);
    var (init, cur') := (cur[..|cur| - 1], WithLast(cur, p));
    BranchSnoc(init, p);
    assert cur'[..lastIx] == init;
  }

  // A pending exactn that ends at the end of the code is the last piece.
  lemma PendingLast(code: seq<byte>, begalt: nat, fixup: Place, laststart: Place, pending: Place,
                    done: seq<Branch>, cur: Branch, hole: seq<byte>, lastIx: nat, pendIx: nat)
    requires Built(code, begalt, fixup, laststart, pending, done, cur, hole, lastIx, pendIx) && pending.At?
    ensures pendIx < |cur| && cur[pendIx].Exact?
    ensures pending.at < |code| && code[pending.at] == |cur[pendIx].s|
    ensures pending.at + 1 + code[pending.at] == |code| ==> pendIx == |cur| - 1
  {
    hide BranchCode, HeadCode, AtomCode, RepCode;
    PieceInCode(cur, pendIx);
    var (pre, x, post) :=
      (HeadCode(done, hole) + BranchCode(cur[..pendIx]), PieceCode(cur[pendIx]), BranchCode(cur[pendIx + 1..]));
    assert code == pre + x + post;
    assert code[pending.at] == x[1];
  }

  // One more byte for the last literal.
  lemma BuiltLiteral(code: seq<byte>, begalt: nat, fixup: Place, laststart: Place, pending: Place,
                     done: seq<Branch>, cur: Branch, hole: seq<byte>, lastIx: nat, pendIx: nat, c: byte)
    requires Built(code, begalt, fixup, laststart, pending, done, cur, hole, lastIx, pendIx)
    requires pending.At? && pendIx == |cur| - 1 && |cur[pendIx].s| < 255
    ensures pending.at < |code| && code[pending.at] < 255
    ensures Built(code[pending.at := code[pending.at] + 1] + [c], begalt, fixup, laststart, pending, done,
                  WithLast(cur, Exact(cur[pendIx].s + [c])), hole, lastIx, pendIx)
  {
    hide BranchCode, HeadCode, PieceLen, AtomCode, RepCode;
    PendingLast(code, begalt, fixup, laststart, pending, done, cur, hole, lastIx, pendIx);
    var (init, s) := (cur[..pendIx], cur[pendIx].s);
    var cur' := WithLast(cur, Exact(s + [c]));
    PieceInCode(cur, pendIx);
    assert cur[..pendIx + 1] == cur;
    BranchSnoc(init, Exact(s + [c]));
    var pre := HeadCode(done, hole) + BranchCode(init);
    assert code == pre + ([EXACTN, |s|] + s);
    assert code[pending.at := code[pending.at] + 1] + [c] == pre + ([EXACTN, |s| + 1] + (s + [c]));
    assert cur'[..pendIx] == init;
    if laststart.At? { assert cur'[..lastIx] == cur[..lastIx]; }
  }

  // Starting the next alternative: the jump before this one, the previous jump past it, a new hole.
  lemma BuiltAlternative(code: seq<byte>, begalt: nat, fixup: Place, laststart: Place, pending: Place,
                         done: seq<Branch>, cur: Branch, hole: seq<byte>, lastIx: nat, pendIx: nat,
                         inserted: seq<byte>, filled: seq<byte>, hole': seq<byte>)
    requires Built(code, begalt, fixup, laststart, pending, done, cur, hole, lastIx, pendIx) && |hole'| == 3
    requires begalt <= |code| && inserted == Inserted(code, begalt, Op1(ON_FAILURE_JUMP, |code| - begalt + 3))
    requires fixup.At? ==> fixup.at + 3 <= |inserted|
                           && filled == inserted[..fixup.at] + Op1(JUMP_PAST_ALT, |inserted| - fixup.at - 3)
                                        + inserted[fixup.at + 3..]
    requires fixup.Nowhere? ==> filled == inserted
    ensures Built(filled + hole', |filled| + 3, At(|filled|), Nowhere, Nowhere, done + [cur], [], hole', 0, 0)
  {
    hide BranchCode, HeadCode, WfBranch, Op1;
    var (head, body) := (HeadCode(done, hole), BranchCode(cur));
    var o := Op1(ON_FAILURE_JUMP, |body| + 3);
    assert code[..begalt] == head && code[begalt..] == body;
    var fill := Op1(JUMP_PAST_ALT, |body| + 3);
    Op1Size(ON_FAILURE_JUMP, |body| + 3);
    Op1Size(JUMP_PAST_ALT, |body| + 3);
    HeadLength(done, hole, fill);
    HeadSnoc(done, cur, hole');
    EmptyHead(hole, fill);
    EmptyBranch();
    assert inserted == head + (o + body);
    assert filled == HeadCode(done, fill) + (o + body) by {
      if fixup.At? { FillHole(head, o + body, fill, inserted, filled); }
    }
    assert filled + hole' == HeadCode(done, fill) + (o + (body + hole'));
    assert HeadCode(done + [cur], hole') + BranchCode([]) == filled + hole';
  }

  lemma Op1Size(op: byte, arg: int)
    ensures |Op1(op, arg)| == 3
  {
  }

  lemma FillHole(head: seq<byte>, tail: seq<byte>, fill: seq<byte>, whole: seq<byte>, filled: seq<byte>)
    requires |head| >= 3 && |fill| == 3 && whole == head + tail
    requires filled == whole[..|head| - 3] + fill + whole[|head|..]
    ensures filled == head[..|head| - 3] + fill + tail
  {
    assert whole[|head|..] == tail;
    assert whole[..|head| - 3] == head[..|head| - 3];
  }

  lemma EmptyHead(hole: seq<byte>, hole': seq<byte>)
    ensures HeadCode([], hole) == HeadCode([], hole') == []
  {
  }

  lemma EmptyBranch()
    ensures WfBranch([]) && BranchCode([]) == []
  {
  }

  // The end of the pattern: the last jump past the last alternative.
  lemma BuiltFinish(code: seq<byte>, begalt: nat, fixup: Place, laststart: Place, pending: Place,
                    done: seq<Branch>, cur: Branch, hole: seq<byte>, lastIx: nat, pendIx: nat, filled: seq<byte>)
    requires Built(code, begalt, fixup, laststart, pending, done, cur, hole, lastIx, pendIx)
    requires fixup.At? ==> fixup.at + 3 <= |code|
                           && filled == code[..fixup.at] + Op1(JUMP_PAST_ALT, |code| - fixup.at - 3)
                                        + code[fixup.at + 3..]
    requires fixup.Nowhere? ==> filled == code
    ensures WfPattern(done + [cur]) && filled == PatternCode(done + [cur])
  {
    hide BranchCode, HeadCode, WfBranch;
    var (head, body, bs) := (HeadCode(done, hole), BranchCode(cur), done + [cur]);
    var fill := Op1(JUMP_PAST_ALT, |body|);
    HeadLength(done, hole, fill);
    EmptyHead(hole, fill);
    assert bs[..|bs| - 1] == done && bs[|bs| - 1] == cur;
    if fixup.At? { FillHole(head, body, fill, code, filled); }
  }

  // Writes the count byte and the bit map of a bracket expression; their length is returned.
  method WriteBitMap(buf: array<byte>, at: nat, ranges: seq<Range>) returns (used: nat)
    requires at + 33 <= buf.Length && OrderedRanges(ranges)
    modifies buf
    ensures buf[..at] == old(buf[..at]) && used == 1 + MapLen(Members(ranges)) && at + used <= buf.Length
    ensures buf[at..at + used] == [MapLen(Members(ranges))] + MapBytes(Members(ranges), MapLen(Members(ranges)))
  {
    hide MapBytes, Members, MapLen;
    buf[at] := 32;
    FillBitMap(buf, at + 1, ranges);
    assert buf[at] == buf[..at + 1][at] && buf[..at] == buf[..at + 1][..at];
    TrimBitMap(buf, at + 1, Members(ranges));
    used := 1 + buf[at];
    assert buf[at..at + used] == [buf[at]] + buf[at + 1..at + used];
  }

  // Writes a bracket expression at `at`; its length is returned.
  method WriteBracket(buf: array<byte>, at: nat, neg: bool, ranges: seq<Range>) returns (used: nat)
    requires at + 34 <= buf.Length && OrderedRanges(ranges)
    modifies buf
    ensures at + used <= buf.Length && buf[..at + used] == old(buf[..at]) + AtomCode(Set(neg, Members(ranges)))
  {
    hide MapBytes, Members, MapLen, AtomCode;
    var op := if neg then CHARSET_NOT else CHARSET;
    buf[at] := op;
    assert buf[..at + 1] == old(buf[..at]) + [op];
    var n := WriteBitMap(buf, at + 1, ranges);
    used := 1 + n;
    ghost var bits := buf[at + 1..at + 1 + n];
    BracketCode(neg, Members(ranges), bits);
    assert buf[..at + used] == buf[..at + 1] + bits;
    assert old(buf[..at]) + [op] + bits == old(buf[..at]) + ([op] + bits);
  }

  lemma BracketCode(neg: bool, members: set<byte>, bits: seq<byte>)
    requires bits == [MapLen(members)] + MapBytes(members, MapLen(members))
    ensures AtomCode(Set(neg, members)) == [if neg then CHARSET_NOT else CHARSET] + bits
  {
    hide MapBytes, MapLen;
  }

  class Compiler {
    var buffer: array<byte>
    var b: nat
    var begalt: nat
    var fixupAltJump: Place
    var laststart: Place
    var pendingExact: Place

    ghost var done: seq<Branch>
    ghost var cur: Branch
    ghost var hole: seq<byte>
    ghost var lastIx: nat
    ghost var pendIx: nat

    ghost predicate Raw()
      reads this
    {
      b <= buffer.Length <= MAX_BUF_SIZE && buffer.Length > 0
    }

    ghost function Code(): seq<byte>
      requires Raw()
      reads this, buffer
    {
      buffer[..b]
    }

    ghost predicate Valid()
      reads this, buffer
    {
      Raw() && Built(Code(), begalt, fixupAltJump, laststart, pendingExact, done, cur, hole, lastIx, pendIx)
    }

    // The allocated size is given to start with.
    constructor (size: nat)
      requires 0 < size <= MAX_BUF_SIZE
      ensures Valid() && done == [] && cur == [] && fresh(buffer) && laststart == Nowhere
    {
      buffer := new byte[size];
      b, begalt, fixupAltJump, laststart, pendingExact := 0, 0, Nowhere, Nowhere, Nowhere;
      done, cur, hole, lastIx, pendIx := [], [], [0, 0, 0], 0, 0;
    }

    // GET_BUFFER_SPACE: doubles the buffer until n more bytes fit. False is REG_ESIZE.
    method GetBufferSpace(n: nat) returns (ok: bool)
      requires Raw()
      modifies this`buffer
      ensures Raw() && Code() == old(Code()) && (buffer == old(buffer) || fresh(buffer))
      ensures ok <==> b + n <= MAX_BUF_SIZE
      ensures ok ==> b + n <= buffer.Length
    {
      while b + n > buffer.Length
        invariant Raw() && Code() == old(Code()) && (buffer == old(buffer) || fresh(buffer))
        decreases MAX_BUF_SIZE - buffer.Length
      {
        if buffer.Length == MAX_BUF_SIZE { return false; }
        var size := if buffer.Length * 2 > MAX_BUF_SIZE then MAX_BUF_SIZE else buffer.Length * 2;
        var larger := new byte[size];
        var k := 0;
        while k < b
          invariant Raw() && buffer[..b] == old(Code()) && (buffer == old(buffer) || fresh(buffer))
          invariant 0 <= k <= b <= larger.Length == size && larger[..k] == buffer[..k]
        {
          larger[k] := buffer[k];
          k := k + 1;
        }
        buffer := larger;
      }
      ok := true;
    }

    // BUF_PUSH.
    method BufPush(c: byte) returns (ok: bool)
      requires Raw()
      modifies this`buffer, this`b, buffer
      ensures Raw() && (buffer == old(buffer) || fresh(buffer))
      ensures ok <==> old(b) + 1 <= MAX_BUF_SIZE
      ensures ok ==> Code() == old(Code()) + [c] && b == old(b) + 1
    {
      ok := GetBufferSpace(1);
      if ok {
        buffer[b] := c;
        b := b + 1;
      }
    }

    // BUF_PUSH_2.
    method BufPush2(c1: byte, c2: byte) returns (ok: bool)
      requires Raw()
      modifies this`buffer, this`b, buffer
      ensures Raw() && (buffer == old(buffer) || fresh(buffer))
      ensures ok <==> old(b) + 2 <= MAX_BUF_SIZE
      ensures ok ==> Code() == old(Code()) + [c1, c2] && b == old(b) + 2
    {
      ok := GetBufferSpace(2);
      if ok {
        buffer[b], buffer[b + 1] := c1, c2;
        b := b + 2;
      }
    }

    // STORE_JUMP at the end, with the space for it.
    method AppendJump(op: byte, to: int) returns (ok: bool)
      requires Raw()
      modifies this`buffer, this`b, buffer
      ensures Raw() && (buffer == old(buffer) || fresh(buffer))
      ensures ok <==> old(b) + 3 <= MAX_BUF_SIZE
      ensures ok ==> Code() == old(Code()) + Op1(op, to - old(b) - 3) && b == old(b) + 3
    {
      ok := GetBufferSpace(3);
      if ok {
        StoreOp1(buffer, op, b, to - b - 3);
        b := b + 3;
      }
    }

    // INSERT_JUMP, with the space for it.
    method InsertJump(op: byte, loc: nat, to: int) returns (ok: bool)
      requires Raw() && loc <= b
      modifies this`buffer, this`b, buffer
      ensures Raw() && (buffer == old(buffer) || fresh(buffer))
      ensures ok <==> old(b) + 3 <= MAX_BUF_SIZE
      ensures ok ==> Code() == Inserted(old(Code()), loc, Op1(op, to - loc - 3)) && b == old(b) + 3
    {
      ok := GetBufferSpace(3);
      if ok {
        assert buffer[..loc] == old(Code())[..loc] && buffer[loc..b] == old(Code())[loc..];
        InsertOp1(buffer, op, loc, to - loc - 3, b);
        b := b + 3;
      }
    }

    // insert_op2; the space has been made.
    method Insert2(op: byte, loc: nat, arg1: int, arg2: int)
      requires Raw() && loc <= b && b + 5 <= buffer.Length
      modifies this`b, buffer
      ensures Raw() && b == old(b) + 5
      ensures Code() == Inserted(old(Code()), loc, Op2(op, arg1, arg2))
    {
      assert buffer[..loc] == Code()[..loc] && buffer[loc..b] == Code()[loc..];
      InsertOp2(buffer, op, loc, arg1, arg2, b);
      b := b + 5;
    }

    // store_op2 at the end; the space has been made.
    method Append2(op: byte, arg1: int, arg2: int)
      requires Raw() && b + 5 <= buffer.Length
      modifies this`b, buffer
      ensures Raw() && b == old(b) + 5
      ensures Code() == old(Code()) + Op2(op, arg1, arg2)
    {
      StoreOp2(buffer, op, b, arg1, arg2);
      b := b + 5;
    }

    // ---------- The cases ----------

    // laststart is at the last piece, and that piece is an atom alone.
    ghost predicate AfterAtom(atom: Atom)
      reads this
    {
      cur != [] && laststart.At? && lastIx == |cur| - 1 && cur[lastIx] == AtomPiece(atom)
    }

    // A new exactn of one byte.
    method NewExactn(c: byte) returns (ok: bool)
      requires Valid()
      modifies this, buffer
      ensures Raw() && (buffer == old(buffer) || fresh(buffer))
      ensures ok <==> old(b) + 3 <= MAX_BUF_SIZE
      ensures ok ==> Valid() && done == old(done) && cur == old(cur) + [Exact([c])] && AfterAtom(Lit(c))
    {
      hide Built;
      BuiltPiece(Code(), begalt, fixupAltJump, laststart, pendingExact, done, cur, hole, lastIx, pendIx, Exact([c]));
      ok := EmitExactn(c);
      if ok {
        assert Code() == old(Code()) + PieceCode(Exact([c]));
        lastIx, pendIx, cur := |cur|, |cur|, cur + [Exact([c])];
      }
    }

    method EmitExactn(c: byte) returns (ok: bool)
      requires Raw()
      modifies this`buffer, this`b, this`laststart, this`pendingExact, buffer
      ensures Raw() && (buffer == old(buffer) || fresh(buffer))
      ensures ok <==> old(b) + 3 <= MAX_BUF_SIZE
      ensures ok ==> Code() == old(Code()) + [EXACTN, 1, c] && laststart == At(old(b)) && pendingExact == At(old(b) + 1)
    {
      laststart := At(b);
      ok := BufPush2(EXACTN, 0);
      if !ok { return; }
      pendingExact := At(b - 1);
      ok := BufPush(c);
      if !ok { return; }
      buffer[pendingExact.at] := buffer[pendingExact.at] + 1;
      assert Code() == old(Code()) + [EXACTN, 1, c];
    }

    // One more byte for the exactn that ends the code.
    method MoreExactn(c: byte) returns (ok: bool)
      requires Valid() && pendingExact.At? && pendIx == |cur| - 1 && cur[pendIx].Exact? && |cur[pendIx].s| < 255
      modifies this, buffer
      ensures Raw() && (buffer == old(buffer) || fresh(buffer))
      ensures ok <==> old(b) + 1 <= MAX_BUF_SIZE
      ensures ok ==> Valid() && done == old(done) && laststart == old(laststart)
                     && cur == WithLast(old(cur), Exact(old(cur)[|old(cur)| - 1].s + [c]))
    {
      hide Built;
      BuiltLiteral(Code(), begalt, fixupAltJump, laststart, pendingExact, done, cur, hole, lastIx, pendIx, c);
      ghost var code := Code();
      cur := WithLast(cur, Exact(cur[pendIx].s + [c]));
      ok := BufPush(c);
      if !ok { return; }
      buffer[pendingExact.at] := buffer[pendingExact.at] + 1;
      assert Code() == code[pendingExact.at := code[pendingExact.at] + 1] + [c];
    }

    // normal_char: a new exactn, or one more byte for the one being built. quantified says that a
    // repetition operator (or `^`) follows in the pattern.
    method NormalChar(c: byte, quantified: bool) returns (ok: bool)
      requires Valid()
      modifies this, buffer
      ensures Raw() && (buffer == old(buffer) || fresh(buffer))
      ensures !ok ==> old(b) + 3 > MAX_BUF_SIZE
      ensures ok ==> Valid() && done == old(done) && laststart.At?
      ensures ok ==> (cur == old(cur) + [Exact([c])] && AfterAtom(Lit(c)))
                     || (!quantified && old(cur) != [] && old(cur)[|old(cur)| - 1].Exact?
                         && cur == WithLast(old(cur), Exact(old(cur)[|old(cur)| - 1].s + [c])))
    {
      hide Built;
      var fits := false;
      if pendingExact.At? {
        PendingLast(Code(), begalt, fixupAltJump, laststart, pendingExact, done, cur, hole, lastIx, pendIx);
        assert buffer[pendingExact.at] == Code()[pendingExact.at];
        fits := pendingExact.at + 1 + buffer[pendingExact.at] == b && buffer[pendingExact.at] != 255 && !quantified;
        LiteralSize(Code(), begalt, fixupAltJump, laststart, pendingExact, done, cur, hole, lastIx, pendIx);
      }
      if fits {
        ok := MoreExactn(c);
      } else {
        ok := NewExactn(c);
      }
    }

    // `.`
    method Dot() returns (ok: bool)
      requires Valid()
      modifies this, buffer
      ensures Raw() && (buffer == old(buffer) || fresh(buffer))
      ensures ok <==> old(b) + 1 <= MAX_BUF_SIZE
      ensures ok ==> Valid() && done == old(done) && cur == old(cur) + [One(Any)] && AfterAtom(Any)
    {
      hide Built;
      BuiltPiece(Code(), begalt, fixupAltJump, laststart, pendingExact, done, cur, hole, lastIx, pendIx, One(Any));
      laststart := At(b);
      lastIx, cur := |cur|, cur + [One(Any)];
      ok := BufPush(ANYCHAR);
      assert ok ==> Code() == old(Code()) + PieceCode(One(Any));
    }

    // `^`, `$` and the buffer anchors.
    method AnchorAt(spot: Spot) returns (ok: bool)
      requires Valid()
      modifies this, buffer
      ensures Raw() && (buffer == old(buffer) || fresh(buffer))
      ensures ok <==> old(b) + 1 <= MAX_BUF_SIZE
      ensures ok ==> Valid() && done == old(done) && laststart == old(laststart) && cur == old(cur) + [Anchor(spot)]
    {
      hide Built;
      BuiltPiece(Code(), begalt, fixupAltJump, laststart, pendingExact, done, cur, hole, lastIx, pendIx, Anchor(spot));
      cur := cur + [Anchor(spot)];
      ok := BufPush(SpotCode(spot));
    }

    // `[...]`: 34 bytes are reserved, and as many of them kept as the map needs.
    method Bracket(neg: bool, ranges: seq<Range>) returns (ok: bool)
      requires Valid() && OrderedRanges(ranges)
      modifies this, buffer
      ensures Raw() && (buffer == old(buffer) || fresh(buffer))
      ensures ok <==> old(b) + 34 <= MAX_BUF_SIZE
      ensures ok ==> Valid() && done == old(done)
                     && cur == old(cur) + [One(Set(neg, Members(ranges)))] && AfterAtom(Set(neg, Members(ranges)))
    {
      hide Built;
      ghost var p := One(Set(neg, Members(ranges)));
      BuiltPiece(Code(), begalt, fixupAltJump, laststart, pendingExact, done, cur, hole, lastIx, pendIx, p);
      laststart := At(b);
      lastIx, cur := |cur|, cur + [p];
      ok := EmitBracket(neg, ranges);
      assert ok ==> Code() == old(Code()) + PieceCode(p);
    }

    method EmitBracket(neg: bool, ranges: seq<Range>) returns (ok: bool)
      requires Raw() && OrderedRanges(ranges)
      modifies this`buffer, this`b, buffer
      ensures Raw() && (buffer == old(buffer) || fresh(buffer))
      ensures ok <==> old(b) + 34 <= MAX_BUF_SIZE
      ensures ok ==> Code() == old(Code()) + AtomCode(Set(neg, Members(ranges)))
    {
      hide AtomCode;
      ok := GetBufferSpace(34);
      if ok {
        var used := WriteBracket(buffer, b, neg, ranges);
        b := b + used;
      }
    }

    // `*`, `\+` and `\?`, or a sequence of them that amounts to zeroOk and manyOk.
    method Repeat(zeroOk: bool, manyOk: bool, ghost atom: Atom) returns (ok: bool)
      requires Valid() && AfterAtom(atom) && (zeroOk || manyOk)
      modifies this, buffer
      ensures Raw() && (buffer == old(buffer) || fresh(buffer))
      ensures ok <==> old(b) + (if manyOk then 6 else 3) + (if zeroOk then 0 else 3) <= MAX_BUF_SIZE
      ensures ok ==> Valid() && done == old(done) && laststart.At?
                     && cur == WithLast(old(cur), Rep(atom, QuantOf(zeroOk, manyOk)))
    {
      hide Built, AtomCode, RepCode, Repeated, HeadCode, BranchCode;
      ghost var (code, p) := (Code(), Rep(atom, QuantOf(zeroOk, manyOk)));
      LastPiece(code, begalt, fixupAltJump, laststart, pendingExact, done, cur, hole, lastIx, pendIx);
      AtomPieceCode(atom);
      BuiltLast(code, begalt, fixupAltJump, laststart, pendingExact, done, cur, hole, lastIx, pendIx, p);
      ok := EmitRepeat(zeroOk, manyOk);
      if ok {
        RepeatCode(code, laststart.at, AtomCode(atom), zeroOk, manyOk);
        pendingExact := Nowhere;
        pendIx, cur := 0, WithLast(cur, p);
      }
    }

    method EmitRepeat(zeroOk: bool, manyOk: bool) returns (ok: bool)
      requires Raw() && laststart.At? && laststart.at <= b && (zeroOk || manyOk)
      modifies this`buffer, this`b, buffer
      ensures Raw() && (buffer == old(buffer) || fresh(buffer))
      ensures ok <==> old(b) + (if manyOk then 6 else 3) + (if zeroOk then 0 else 3) <= MAX_BUF_SIZE
      ensures ok ==> Code() == Repeated(old(Code()), laststart.at, zeroOk, manyOk)
    {
      hide Op1, Inserted;
      if manyOk {
        ok := AppendJump(MAYBE_POP_JUMP, laststart.at - 3);
        if !ok { return; }
      }
      ok := InsertJump(ON_FAILURE_JUMP, laststart.at, b + 3);
      if !ok { return; }
      if !zeroOk {
        ok := InsertJump(DUMMY_FAILURE_JUMP, laststart.at, laststart.at + 6);
      }
    }

    // `\{lo,hi\}`.
    method Interval(lo: nat, hi: nat, ghost atom: Atom) returns (ok: bool)
      requires Valid() && AfterAtom(atom) && lo <= hi <= RE_DUP_MAX
      modifies this, buffer
      ensures Raw() && (buffer == old(buffer) || fresh(buffer))
      ensures ok <==> old(b) + (if hi == 0 then 3 else if hi == 1 then 10 else 20) <= MAX_BUF_SIZE
      ensures ok ==> Valid() && done == old(done) && laststart.At?
                     && cur == WithLast(old(cur), Rep(atom, Quant.Interval(lo, hi)))
    {
      hide Built, AtomCode, RepCode, Counted, HeadCode, BranchCode;
      ghost var (code, p) := (Code(), Rep(atom, Quant.Interval(lo, hi)));
      LastPiece(code, begalt, fixupAltJump, laststart, pendingExact, done, cur, hole, lastIx, pendIx);
      AtomPieceCode(atom);
      BuiltLast(code, begalt, fixupAltJump, laststart, pendingExact, done, cur, hole, lastIx, pendIx, p);
      ok := EmitInterval(lo, hi);
      if ok {
        IntervalCode(code, laststart.at, AtomCode(atom), lo, hi);
        pendingExact := Nowhere;
        pendIx, cur := 0, WithLast(cur, p);
      }
    }

    method EmitInterval(lo: nat, hi: nat) returns (ok: bool)
      requires Raw() && laststart.At? && laststart.at <= b
      modifies this`buffer, this`b, buffer
      ensures Raw() && (buffer == old(buffer) || fresh(buffer))
      ensures ok <==> old(b) + (if hi == 0 then 3 else if hi == 1 then 10 else 20) <= MAX_BUF_SIZE
      ensures ok ==> Code() == Counted(old(Code()), laststart.at, lo, hi)
    {
      hide Op1, Op2, Inserted;
      var loc := laststart.at;
      if hi == 0 {
        ok := InsertJump(JUMP, loc, b + 3);
        return;
      }
      var more := if hi > 1 then 1 else 0;
      ok := GetBufferSpace(10 + more * 10);
      if !ok { return; }
      Insert2(SUCCEED_N, loc, b + 5 + more * 5 - loc - 3, lo);
      Insert2(SET_NUMBER_AT, loc, 5, lo);
      if hi > 1 {
        Append2(JUMP_N, loc + 5 - b - 3, hi - 1);
        Insert2(SET_NUMBER_AT, loc, b - loc, hi - 1);
      }
    }

    // `\|`.
    method Alternative() returns (ok: bool)
      requires Valid()
      modifies this, buffer
      ensures Raw() && (buffer == old(buffer) || fresh(buffer))
      ensures ok <==> old(b) + 6 <= MAX_BUF_SIZE
      ensures ok ==> Valid() && done == old(done) + [old(cur)] && cur == [] && laststart == Nowhere
    {
      hide Built, Inserted, Op1, HeadCode, BranchCode, WfBranch;
      ghost var code := Code();
      Bounds(code, begalt, fixupAltJump, laststart, pendingExact, done, cur, hole, lastIx, pendIx);
      ghost var inserted, filled;
      ok, inserted, filled := EmitAlternative();
      if !ok { return; }
      ghost var hole' := Code()[b - 3..];
      assert Code() == filled + hole';
      BuiltAlternative(code, begalt, fixupAltJump, laststart, pendingExact, done, cur, hole, lastIx, pendIx, inserted,
                       filled, hole');
      fixupAltJump := At(b - 3);
      pendingExact, laststart, begalt := Nowhere, Nowhere, b;
      done, cur, hole, lastIx, pendIx := done + [cur], [], hole', 0, 0;
    }

    // The bytes: a jump inserted before the alternative, the previous hole filled, a new hole.
    method EmitAlternative() returns (ok: bool, ghost inserted: seq<byte>, ghost filled: seq<byte>)
      requires Raw() && begalt <= b && (fixupAltJump.At? ==> fixupAltJump.at + 3 == begalt)
      modifies this`buffer, this`b, buffer
      ensures Raw() && (buffer == old(buffer) || fresh(buffer))
      ensures ok <==> old(b) + 6 <= MAX_BUF_SIZE
      ensures ok ==> b == old(b) + 6 && |inserted| == |filled| == b - 3 && Code()[..b - 3] == filled
      ensures ok ==> inserted == Inserted(old(Code()), begalt, Op1(ON_FAILURE_JUMP, old(b) - begalt + 3))
      ensures ok ==> if fixupAltJump.Nowhere? then filled == inserted
                     else filled == inserted[..fixupAltJump.at] + Op1(JUMP_PAST_ALT, |inserted| - fixupAltJump.at - 3)
                                    + inserted[fixupAltJump.at + 3..]
    {
      hide Inserted, Op1;
      inserted, filled := [], [];
      ok := InsertJump(ON_FAILURE_JUMP, begalt, b + 6);
      if !ok { return; }
      inserted := Code();
      FillFixup();
      filled := Code();
      ok := GetBufferSpace(3);
      if ok { b := b + 3; }
    }

    // Stores the jump_past_alt space was left for, if any, to the current end.
    method FillFixup()
      requires Raw() && (fixupAltJump.At? ==> fixupAltJump.at + 3 <= b)
      modifies buffer
      ensures Raw() && (fixupAltJump.Nowhere? ==> Code() == old(Code()))
      ensures fixupAltJump.At? ==>
                Code() == old(Code())[..fixupAltJump.at] + Op1(JUMP_PAST_ALT, b - fixupAltJump.at - 3)
                          + old(Code())[fixupAltJump.at + 3..]
    {
      if fixupAltJump.At? {
        var loc := fixupAltJump.at;
        assert buffer[..loc] == Code()[..loc] && buffer[loc + 3..b] == Code()[loc + 3..];
        assert buffer[loc + 3..] == buffer[loc + 3..b] + buffer[b..];
        StoreOp1(buffer, JUMP_PAST_ALT, loc, b - loc - 3);
      }
    }

    // The end of the pattern; used is the length of the compiled pattern.
    method Finish() returns (used: nat)
      requires Valid()
      modifies buffer
      ensures used == b <= buffer.Length && WfPattern(done + [cur]) && buffer[..used] == PatternCode(done + [cur])
    {
      hide Built;
      ghost var code := Code();
      Bounds(code, begalt, fixupAltJump, laststart, pendingExact, done, cur, hole, lastIx, pendIx);
      FillFixup();
      BuiltFinish(code, begalt, fixupAltJump, laststart, pendingExact, done, cur, hole, lastIx, pendIx, Code());
      used := b;
    }
  }

  lemma Bounds(code: seq<byte>, begalt: nat, fixup: Place, laststart: Place, pending: Place,
               done: seq<Branch>, cur: Branch, hole: seq<byte>, lastIx: nat, pendIx: nat)
    requires Built(code, begalt, fixup, laststart, pending, done, cur, hole, lastIx, pendIx)
    ensures begalt <= |code| && (fixup.At? ==> fixup.at + 3 == begalt)
  {
  }

  // x inserted at loc.
  function Inserted(code: seq<byte>, loc: nat, x: seq<byte>): seq<byte>
    requires loc <= |code|
  {
    code[..loc] + x + code[loc..]
  }

  lemma InsertedAt(pre: seq<byte>, rest: seq<byte>, x: seq<byte>)
    ensures Inserted(pre + rest, |pre|, x) == pre + (x + rest)
  {
  }

  // The code after the insertions for a repetition that starts at loc.
  function Repeated(code: seq<byte>, loc: nat, zeroOk: bool, manyOk: bool): seq<byte>
    requires loc <= |code|
  {
    var c1 := if manyOk then code + Op1(MAYBE_POP_JUMP, loc - 3 - |code| - 3) else code;
    var c2 := Inserted(c1, loc, Op1(ON_FAILURE_JUMP, |c1| + 3 - loc - 3));
    if zeroOk then c2 else Inserted(c2, loc, Op1(DUMMY_FAILURE_JUMP, 3))
  }

  lemma RepeatCode(code: seq<byte>, loc: nat, a: seq<byte>, zeroOk: bool, manyOk: bool)
    requires loc <= |code| && code[loc..] == a && (zeroOk || manyOk)
    ensures Repeated(code, loc, zeroOk, manyOk) == code[..loc] + RepCode(a, QuantOf(zeroOk, manyOk))
  {
    hide Op1, Inserted;
    var (pre, n) := (code[..loc], |a|);
    Op1Size(MAYBE_POP_JUMP, -(n + 6));
    var m := if manyOk then Op1(MAYBE_POP_JUMP, -(n + 6)) else [];
    var o := Op1(ON_FAILURE_JUMP, if manyOk then n + 3 else n);
    assert code + m == pre + (a + m);
    InsertedAt(pre, a + m, o);
    InsertedAt(pre, o + (a + m), Op1(DUMMY_FAILURE_JUMP, 3));
    assert code == code + [] && a + [] == a;
    assert o + (a + m) == o + a + m;
    assert Op1(DUMMY_FAILURE_JUMP, 3) + (o + (a + m)) == Op1(DUMMY_FAILURE_JUMP, 3) + o + a + m;
  }

  // The code after the insertions and the store for an interval that starts at loc.
  function Counted(code: seq<byte>, loc: nat, lo: nat, hi: nat): seq<byte>
    requires loc <= |code|
  {
    if hi == 0 then Inserted(code, loc, Op1(JUMP, |code| + 3 - loc - 3))
    else
      var more := if hi > 1 then 1 else 0;
      var c1 := Inserted(code, loc, Op2(SUCCEED_N, |code| + 5 + more * 5 - loc - 3, lo));
      var c2 := Inserted(c1, loc, Op2(SET_NUMBER_AT, 5, lo));
      if hi == 1 then c2
      else
        var c3 := c2 + Op2(JUMP_N, loc + 5 - |c2| - 3, hi - 1);
        Inserted(c3, loc, Op2(SET_NUMBER_AT, |c3| - loc, hi - 1))
  }

  lemma Op2Size(op: byte, arg1: int, arg2: int)
    ensures |Op2(op, arg1, arg2)| == 5
  {
  }

  lemma IntervalCode(code: seq<byte>, loc: nat, a: seq<byte>, lo: nat, hi: nat)
    requires loc <= |code| && code[loc..] == a
    ensures Counted(code, loc, lo, hi) == code[..loc] + RepCode(a, Quant.Interval(lo, hi))
  {
    hide Op1, Op2, Inserted;
    var (pre, n) := (code[..loc], |a|);
    assert code == pre + a;
    InsertedAt(pre, a, Op1(JUMP, n));
    if hi > 0 {
      var x, y := Op2(SUCCEED_N, if hi > 1 then n + 7 else n + 2, lo), Op2(SET_NUMBER_AT, 5, lo);
      Op2Size(SUCCEED_N, if hi > 1 then n + 7 else n + 2, lo);
      Op2Size(SET_NUMBER_AT, 5, lo);
      InsertedAt(pre, a, x);
      InsertedAt(pre, x + a, y);
      assert y + (x + a) == y + x + a;
      if hi > 1 { CountedCode(pre, y + x + a, n, lo, hi); }
    }
  }

  // The jump_n stored at the end and the set_number_at inserted for it.
  lemma CountedCode(pre: seq<byte>, body: seq<byte>, n: nat, lo: nat, hi: nat)
    requires |body| == n + 10 && hi > 1
    ensures var c2 := pre + body;
            var w := Op2(JUMP_N, -(n + 8), hi - 1);
            && Op2(JUMP_N, |pre| + 5 - |c2| - 3, hi - 1) == w && |c2 + w| - |pre| == n + 15
            && Inserted(c2 + w, |pre|, Op2(SET_NUMBER_AT, n + 15, hi - 1))
               == pre + (Op2(SET_NUMBER_AT, n + 15, hi - 1) + (body + w))
  {
    hide Op2, Inserted;
    var w := Op2(JUMP_N, -(n + 8), hi - 1);
    Op2Size(JUMP_N, -(n + 8), hi - 1);
    assert pre + body + w == pre + (body + w);
    InsertedAt(pre, body + w, Op2(SET_NUMBER_AT, n + 15, hi - 1));
  }

  lemma LiteralSize(code: seq<byte>, begalt: nat, fixup: Place, laststart: Place, pending: Place,
                    done: seq<Branch>, cur: Branch, hole: seq<byte>, lastIx: nat, pendIx: nat)
    requires Built(code, begalt, fixup, laststart, pending, done, cur, hole, lastIx, pendIx) && pending.At?
    ensures laststart.At? && pendIx < |cur| && cur[pendIx].Exact? && |cur[pendIx].s| <= 255
  {
  }
}
