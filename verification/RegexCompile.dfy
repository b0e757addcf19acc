/**
 regex_compile as a whole: the loop over the pattern, and what the compiled pattern has to do with
 the meaning of the pattern.
 */
module RegexCompile {
  import opened Bytes
  import opened RegexAst
  import opened RegexBracket
  import opened RegexSource
  import opened RegexBuild
  import opened RegexCompiler

  datatype ErrorCode = NoError | ESize | ERange | BadBr

  // Every range of a bracket expression ends no earlier than it starts, and interval bounds are in
  // order and in range.
  predicate Proper(tok: Token) {
    && (tok.Bracket? ==> OrderedRanges(tok.ranges))
    && (tok.Times? ==> tok.lo <= tok.hi <= RE_DUP_MAX)
  }

  // Some range ends before it starts.
  predicate Backwards(ranges: seq<Range>) { exists r :: 0 <= r < |ranges| && ranges[r].hi < ranges[r].lo }

  lemma RangesOrdered(ranges: seq<Range>)
    ensures Backwards(ranges) <==> !OrderedRanges(ranges)
  {
  }

  predicate AllProper(toks: seq<Token>, n: nat)
    requires n <= |toks|
  {
    forall k | 0 <= k < n :: Proper(toks[k])
  }

  // Literals grouped, what has been compiled so far and what is still to be read make up the meaning.
  ghost predicate Halfway(toks: seq<Token>, i: nat, before: Before, done: seq<Branch>, cur: Branch)
    requires i <= |toks|
  {
    && Readable(toks[i..], before)
    && Meaning(toks) == Ungrouped(done) + Parse(toks[i..], before, Ungroup(cur))
  }

  // The compiler's view of what stands before the next token.
  ghost predicate Agrees(c: Compiler, before: Before, quantified: bool)
    reads c
  {
    && (before.Nothing? <==> c.laststart.Nowhere?)
    && (before.Single? && quantified ==> exists atom :: c.AfterAtom(atom))
  }

  predicate Quantified(toks: seq<Token>, i: nat) { i < |toks| && (toks[i].Repeat? || toks[i].Times?) }

  lemma Begun(toks: seq<Token>)
    requires Readable(toks, Nothing)
    ensures Halfway(toks, 0, Nothing, [], [])
  {
    assert toks[0..] == toks;
    assert Ungrouped([]) + Parse(toks, Nothing, []) == Parse(toks, Nothing, []);
  }

  // One token read that adds one single-character piece to the meaning.
  lemma ReadSingle(toks: seq<Token>, i: nat, before: Before, done: seq<Branch>, cur: Branch, cur': Branch, p: Piece)
    requires i < |toks| && Halfway(toks, i, before, done, cur) && Ungroup(cur') == Ungroup(cur) + [p]
    requires match toks[i]
             case Char(c, _) => p == Exact([c])
             case Dot => p == One(Any)
             case Bracket(neg, ranges) => p == One(Set(neg, Members(ranges)))
             case Repeat(op) => before.Nothing? && p == Exact([OpByte(op)])
             case _ => false
    ensures Halfway(toks, i + 1, Single, done, cur')
  {
    assert toks[i..][1..] == toks[i + 1..];
  }

  lemma ReadWhere(toks: seq<Token>, i: nat, before: Before, done: seq<Branch>, cur: Branch)
    requires i < |toks| && Halfway(toks, i, before, done, cur) && toks[i].Where?
    ensures Halfway(toks, i + 1, if before.Nothing? then Nothing else Other, done, cur + [Anchor(toks[i].spot)])
  {
    assert toks[i..][1..] == toks[i + 1..];
    UngroupSnoc(cur, Anchor(toks[i].spot));
  }

  lemma ReadTimes(toks: seq<Token>, i: nat, before: Before, done: seq<Branch>, cur: Branch, atom: Atom)
    requires i < |toks| && Halfway(toks, i, before, done, cur) && toks[i].Times?
    requires cur != [] && cur[|cur| - 1] == AtomPiece(atom)
    ensures Halfway(toks, i + 1, Other, done, WithLast(cur, Rep(atom, Quant.Interval(toks[i].lo, toks[i].hi))))
  {
    assert toks[i..][1..] == toks[i + 1..];
    UngroupQuantify(cur, atom, Quant.Interval(toks[i].lo, toks[i].hi));
  }

  lemma ReadRepeat(toks: seq<Token>, i: nat, j: nat, before: Before, done: seq<Branch>, cur: Branch, atom: Atom)
    requires i < |toks| && Halfway(toks, i, before, done, cur) && toks[i].Repeat? && !before.Nothing?
    requires i < j <= |toks| && (forall k | i <= k < j :: toks[k].Repeat?) && (j < |toks| ==> !toks[j].Repeat?)
    requires cur != [] && cur[|cur| - 1] == AtomPiece(atom)
    ensures var ops := seq(j - i, k requires 0 <= k < j - i => toks[i + k].op);
            Halfway(toks, j, Other, done, WithLast(cur, Rep(atom, QuantOf(ZeroOk(ops), ManyOk(ops)))))
  {
    var (rest, n) := (toks[i..], j - i);
    var ops := seq(n, k requires 0 <= k < n => toks[i + k].op);
    RunLengthIs(rest, n);
    assert Ops(rest, n) == ops;
    assert rest[n..] == toks[j..];
    UngroupQuantify(cur, atom, QuantOf(ZeroOk(ops), ManyOk(ops)));
  }

  lemma {:induction false} RunLengthIs(toks: seq<Token>, n: nat)
    requires n <= |toks| && (forall k | 0 <= k < n :: toks[k].Repeat?) && (n < |toks| ==> !toks[n].Repeat?)
    ensures RunLength(toks) == n
  {
    if n > 0 { RunLengthIs(toks[1..], n - 1); }
  }

  lemma ReadBar(toks: seq<Token>, i: nat, before: Before, done: seq<Branch>, cur: Branch)
    requires i < |toks| && Halfway(toks, i, before, done, cur) && toks[i].Bar?
    ensures Halfway(toks, i + 1, Nothing, done + [cur], [])
  {
    assert toks[i..][1..] == toks[i + 1..];
    assert Ungrouped(done + [cur]) == Ungrouped(done) + [Ungroup(cur)];
    var rest := Parse(toks[i + 1..], Nothing, []);
    assert Ungrouped(done) + ([Ungroup(cur)] + rest) == (Ungrouped(done) + [Ungroup(cur)]) + rest;
  }

  lemma ReadAll(toks: seq<Token>, before: Before, done: seq<Branch>, cur: Branch)
    requires Halfway(toks, |toks|, before, done, cur)
    ensures Meaning(toks) == Ungrouped(done + [cur])
  {
    assert toks[|toks|..] == [];
    assert Ungrouped(done + [cur]) == Ungrouped(done) + [Ungroup(cur)];
  }

  // A literal goes into the piece before it or becomes a piece.
  lemma ReadLiteral(old': Branch, cur: Branch, c: byte)
    requires cur == old' + [Exact([c])]
             || (old' != [] && old'[|old'| - 1].Exact? && cur == WithLast(old', Exact(old'[|old'| - 1].s + [c])))
    ensures Ungroup(cur) == Ungroup(old') + [Exact([c])]
  {
    hide Ungroup, Singles;
    if cur == old' + [Exact([c])] {
      UngroupSnoc(old', Exact([c]));
      assert Singles([c]) == [Exact([c])];
    } else {
      UngroupLonger(old', old'[|old'| - 1].s, c);
    }
  }

  function RunOps(toks: seq<Token>, i: nat, j: nat): seq<Op>
    requires i <= j <= |toks| && forall k | i <= k < j :: toks[k].Repeat?
  {
    seq(j - i, k requires 0 <= k < j - i => toks[i + k].op)
  }

  // The loop that collapses a sequence of repetition operators.
  method CollapseRun(toks: seq<Token>, i: nat) returns (j: nat, zeroOk: bool, manyOk: bool)
    requires i < |toks| && toks[i].Repeat?
    ensures i < j <= |toks| && (forall k | i <= k < j :: toks[k].Repeat?) && (j < |toks| ==> !toks[j].Repeat?)
    ensures zeroOk == ZeroOk(RunOps(toks, i, j)) && manyOk == ManyOk(RunOps(toks, i, j)) && (zeroOk || manyOk)
  {
    j, zeroOk, manyOk := i, false, false;
    while j < |toks| && toks[j].Repeat?
      invariant i <= j <= |toks| && forall k | i <= k < j :: toks[k].Repeat?
      invariant zeroOk == ZeroOk(RunOps(toks, i, j)) && manyOk == ManyOk(RunOps(toks, i, j))
      invariant (j > i ==> zeroOk || manyOk)
    {
      OneMore(RunOps(toks, i, j), toks[j].op);
      assert RunOps(toks, i, j + 1) == RunOps(toks, i, j) + [toks[j].op];
      zeroOk, manyOk := zeroOk || !toks[j].op.PlusOp?, manyOk || !toks[j].op.QuestOp?;
      j := j + 1;
    }
  }

  // normal_char.
  method ReadChar(toks: seq<Token>, i: nat, ch: byte, beyond: bool, c: Compiler, ghost before: Before)
    returns (ok: bool)
    requires i < |toks| && c.Valid() && Halfway(toks, i, before, c.done, c.cur)
    requires match toks[i]
             case Char(x, _) => x == ch
             case Repeat(op) => before.Nothing? && OpByte(op) == ch
             case _ => false
    modifies c, c.buffer
    ensures c.buffer == old(c.buffer) || fresh(c.buffer)
    ensures !ok ==> old(c.b) + 34 > MAX_BUF_SIZE
    ensures ok ==>
              c.Valid() && Halfway(toks, i + 1, Single, c.done, c.cur) && Agrees(c, Single, Quantified(toks, i + 1))
  {
    hide Built, Halfway, Ungroup;
    var quantified := if i + 1 < |toks| then Splits(toks[i + 1]) else beyond;
    ok := c.NormalChar(ch, quantified);
    if ok {
      ReadLiteral(old(c.cur), c.cur, ch);
      ReadSingle(toks, i, before, c.done, old(c.cur), c.cur, Exact([ch]));
    }
  }

  // `.`
  method ReadDot(toks: seq<Token>, i: nat, c: Compiler, ghost before: Before) returns (ok: bool)
    requires i < |toks| && c.Valid() && Halfway(toks, i, before, c.done, c.cur) && toks[i].Dot?
    modifies c, c.buffer
    ensures c.buffer == old(c.buffer) || fresh(c.buffer)
    ensures !ok ==> old(c.b) + 34 > MAX_BUF_SIZE
    ensures ok ==>
              c.Valid() && Halfway(toks, i + 1, Single, c.done, c.cur) && Agrees(c, Single, Quantified(toks, i + 1))
  {
    hide Built, Halfway, Ungroup;
    UngroupSnoc(c.cur, One(Any));
    ok := c.Dot();
    if ok { ReadSingle(toks, i, before, c.done, old(c.cur), c.cur, One(Any)); }
  }

  // `[`; a range that ends before it starts is an error.
  method ReadBracket(toks: seq<Token>, i: nat, c: Compiler, ghost before: Before) returns (err: ErrorCode)
    requires i < |toks| && c.Valid() && Halfway(toks, i, before, c.done, c.cur) && toks[i].Bracket?
    modifies c, c.buffer
    ensures c.buffer == old(c.buffer) || fresh(c.buffer)
    ensures err == ESize <==> old(c.b) + 34 > MAX_BUF_SIZE
    ensures err == ERange <==> old(c.b) + 34 <= MAX_BUF_SIZE && !Proper(toks[i])
    ensures err != BadBr
    ensures err == NoError ==>
              c.Valid() && Halfway(toks, i + 1, Single, c.done, c.cur) && Agrees(c, Single, Quantified(toks, i + 1))
  {
    hide Built, Halfway, Ungroup, Members;
    ghost var p := One(Set(toks[i].neg, Members(toks[i].ranges)));
    UngroupSnoc(c.cur, p);
    var ok;
    if OrderedRanges(toks[i].ranges) {
      ok := c.Bracket(toks[i].neg, toks[i].ranges);
      if ok { ReadSingle(toks, i, before, c.done, old(c.cur), c.cur, p); }
      err := if ok then NoError else ESize;
    } else {
      ok := c.GetBufferSpace(34);
      err := if ok then ERange else ESize;
    }
  }

  // Anchors.
  method ReadAnchor(toks: seq<Token>, i: nat, c: Compiler, ghost before: Before) returns (ok: bool, ghost after: Before)
    requires i < |toks| && c.Valid() && Halfway(toks, i, before, c.done, c.cur) && toks[i].Where?
    requires before.Nothing? <==> c.laststart.Nowhere?
    modifies c, c.buffer
    ensures c.buffer == old(c.buffer) || fresh(c.buffer)
    ensures !ok ==> old(c.b) + 34 > MAX_BUF_SIZE
    ensures ok ==> c.Valid() && Halfway(toks, i + 1, after, c.done, c.cur) && Agrees(c, after, Quantified(toks, i + 1))
  {
    hide Built, Halfway;
    after := if before.Nothing? then Nothing else Other;
    ReadWhere(toks, i, before, c.done, c.cur);
    ok := c.AnchorAt(toks[i].spot);
  }

  // `*`, `\+` and `\?` after something that can be repeated.
  method ReadRun(toks: seq<Token>, i: nat, c: Compiler, ghost before: Before) returns (ok: bool, j: nat)
    requires i < |toks| && c.Valid() && Halfway(toks, i, before, c.done, c.cur) && toks[i].Repeat?
    requires !before.Nothing? && exists atom :: c.AfterAtom(atom)
    modifies c, c.buffer
    ensures c.buffer == old(c.buffer) || fresh(c.buffer)
    ensures !ok ==> old(c.b) + 34 > MAX_BUF_SIZE
    ensures i < j <= |toks| && (forall k | i <= k < j :: toks[k].Repeat?)
    ensures ok ==> c.Valid() && Halfway(toks, j, Other, c.done, c.cur) && Agrees(c, Other, Quantified(toks, j))
  {
    hide Built, Halfway;
    ghost var atom :| c.AfterAtom(atom);
    var zeroOk, manyOk;
    j, zeroOk, manyOk := CollapseRun(toks, i);
    ReadRepeat(toks, i, j, before, c.done, c.cur, atom);
    ok := c.Repeat(zeroOk, manyOk, atom);
  }

  // `\{`; bounds out of order or out of range are an error.
  method ReadInterval(toks: seq<Token>, i: nat, c: Compiler, ghost before: Before) returns (err: ErrorCode)
    requires i < |toks| && c.Valid() && Halfway(toks, i, before, c.done, c.cur) && toks[i].Times?
    requires exists atom :: c.AfterAtom(atom)
    modifies c, c.buffer
    ensures c.buffer == old(c.buffer) || fresh(c.buffer)
    ensures err == ESize ==> old(c.b) + 34 > MAX_BUF_SIZE
    ensures err == BadBr <==> !Proper(toks[i])
    ensures err != ERange
    ensures err == NoError ==>
              c.Valid() && Halfway(toks, i + 1, Other, c.done, c.cur) && Agrees(c, Other, Quantified(toks, i + 1))
  {
    hide Built, Halfway;
    ghost var atom :| c.AfterAtom(atom);
    if toks[i].lo > toks[i].hi || toks[i].hi > RE_DUP_MAX { return BadBr; }
    ReadTimes(toks, i, before, c.done, c.cur, atom);
    var ok := c.Interval(toks[i].lo, toks[i].hi, atom);
    err := if ok then NoError else ESize;
  }

  // `\|`
  method ReadAlternative(toks: seq<Token>, i: nat, c: Compiler, ghost before: Before) returns (ok: bool)
    requires i < |toks| && c.Valid() && Halfway(toks, i, before, c.done, c.cur) && toks[i].Bar?
    modifies c, c.buffer
    ensures c.buffer == old(c.buffer) || fresh(c.buffer)
    ensures !ok ==> old(c.b) + 34 > MAX_BUF_SIZE
    ensures ok ==>
              c.Valid() && Halfway(toks, i + 1, Nothing, c.done, c.cur) && Agrees(c, Nothing, Quantified(toks, i + 1))
  {
    hide Built, Halfway;
    ReadBar(toks, i, before, c.done, c.cur);
    ok := c.Alternative();
  }

  lemma QuantifierFits(toks: seq<Token>, i: nat, before: Before, done: seq<Branch>, cur: Branch)
    requires i < |toks| && Halfway(toks, i, before, done, cur)
    ensures toks[i].Times? ==> before.Single?
    ensures toks[i].Repeat? ==> before.Nothing? || before.Single?
  {
  }

  // The switch.
  method ReadToken(toks: seq<Token>, i: nat, beyond: bool, c: Compiler, ghost before: Before)
    returns (err: ErrorCode, j: nat, ghost after: Before)
    requires i < |toks| && c.Valid() && Halfway(toks, i, before, c.done, c.cur)
    requires Agrees(c, before, Quantified(toks, i))
    modifies c, c.buffer
    ensures c.buffer == old(c.buffer) || fresh(c.buffer)
    ensures i < j <= |toks|
    ensures err == NoError ==>
              && (forall k | i <= k < j :: Proper(toks[k]))
              && c.Valid() && Halfway(toks, j, after, c.done, c.cur) && Agrees(c, after, Quantified(toks, j))
    ensures err == ERange ==> toks[i].Bracket? && Backwards(toks[i].ranges)
    ensures err == BadBr ==> toks[i].Times? && (toks[i].lo > toks[i].hi || toks[i].hi > RE_DUP_MAX)
    ensures err == ESize ==> old(c.b) + 34 > MAX_BUF_SIZE
  {
    hide Built, Halfway, OrderedRanges, Backwards;
    QuantifierFits(toks, i, before, c.done, c.cur);
    var ok := true;
    err, j, after := NoError, i + 1, Single;
    match toks[i] {
      case Char(ch, _) => ok := ReadChar(toks, i, ch, beyond, c, before);
      case Dot => ok := ReadDot(toks, i, c, before);
      case Bracket(_, ranges) =>
        RangesOrdered(ranges);
        err := ReadBracket(toks, i, c, before);
      case Where(_) => ok, after := ReadAnchor(toks, i, c, before);
      case Repeat(op) =>
        if c.laststart.Nowhere? {
          ok := ReadChar(toks, i, OpByte(op), beyond, c, before);
        } else {
          after := Other;
          ok, j := ReadRun(toks, i, c, before);
        }
      case Times(_, _) =>
        after := Other;
        err := ReadInterval(toks, i, c, before);
      case Bar =>
        after := Nothing;
        ok := ReadAlternative(toks, i, c, before);
    }
    if !ok { err := ESize; }
  }

  /** regex_compile. An error is that of the first token that is not proper: a range error for a bracket, a bound
      error for an interval. The bytes after the pattern, which the look-ahead of a final literal may examine, are
      represented by what it would find there (beyond). */
  method RegexCompile(toks: seq<Token>, size: nat, beyond: bool)
    returns (err: ErrorCode, buffer: array<byte>, used: nat, ghost bs: seq<Branch>)
    requires Readable(toks, Nothing) && 0 < size <= MAX_BUF_SIZE
    ensures err == NoError ==> AllProper(toks, |toks|)
    ensures err == ERange ==> exists k :: 0 <= k < |toks| && AllProper(toks, k)
                                          && toks[k].Bracket? && Backwards(toks[k].ranges)
    ensures err == BadBr ==> exists k :: 0 <= k < |toks| && AllProper(toks, k)
                                         && toks[k].Times? && (toks[k].lo > toks[k].hi || toks[k].hi > RE_DUP_MAX)
    ensures err == ESize ==> used + 34 > MAX_BUF_SIZE
    ensures err == NoError ==> used <= buffer.Length && WfPattern(bs) && buffer[..used] == PatternCode(bs)
    ensures err == NoError ==> Ungrouped(bs) == Meaning(toks)
  {
    hide Readable, Parse, Ungroup, PatternCode, WfPattern;
    var c := new Compiler(size);
    var i: nat := 0;
    ghost var before := Nothing;
    Begun(toks);
    err, buffer, used, bs := NoError, c.buffer, 0, [];
    while i < |toks|
      invariant err == NoError && i <= |toks| && fresh(c) && fresh(c.buffer) && c.Valid() && AllProper(toks, i)
      invariant Halfway(toks, i, before, c.done, c.cur) && Agrees(c, before, Quantified(toks, i))
    {
      hide Halfway;
      used := c.b;
      ghost var at := i;
      err, i, before := ReadToken(toks, i, beyond, c, before);
      if err != NoError {
        assert AllProper(toks, at);
        return;
      }
    }
    ReadAll(toks, before, c.done, c.cur);
    buffer, bs := c.buffer, c.done + [c.cur];
    used := c.Finish();
  }
}
