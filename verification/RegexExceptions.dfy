/**
 Why the conditions of the theorems are needed: for each reason the matcher has to depart from a pattern,
 patterns of the shape concerned, and exactly which of them, or which texts, it is wrong about. A loop may
 be popped wrongly before a literal or `$`; a failure point may be dropped at a `\{0\}` behind any
 quantifier or at the beginning of an alternative; the stack may overflow; a shorter alternative may win.
 */
module RegexExceptions {
  import opened Bytes
  import opened RegexAst
  import opened RegexCode
  import opened RegexTrace
  import opened RegexGreedy
  import opened RegexLayout
  import opened RegexTheorems
  import opened RegexBuild
  import opened RegexLimits
  import opened RegexFine
  import opened RegexShadow

  ghost predicate MatchesSomewhere(bs: seq<Branch>, t: Text, pos: nat)
    requires pos <= |t|
  {
    exists e: nat :: PatternMatches(bs, t, pos, e)
  }

  // Matching agrees with the language of the pattern on every text, up to stack overflow.
  ghost predicate Recognises(bs: seq<Branch>)
    requires WfPattern(bs) && Linked(Flatten(bs))
  {
    forall t: Text, pos: nat | pos <= |t| && MatchResult(Flatten(bs), t, pos) != -2 ::
      MatchResult(Flatten(bs), t, pos) >= 0 <==> MatchesSomewhere(bs, t, pos)
  }

  lemma FineRecognises(bs: seq<Branch>)
    requires WfPattern(bs) && JumpsFit(bs)
    ensures Linked(Flatten(bs)) && Laid(bs, Flatten(bs)) && (Fine(bs) ==> Recognises(bs))
  {
    hide MatchResult, Fine, PatternMatches, Sound, Grounded;
    LaidOut(bs);
    FineExactly(bs, Flatten(bs));
    if Fine(bs) {
      forall t: Text, pos: nat | pos <= |t| && MatchResult(Flatten(bs), t, pos) != -2
        ensures MatchResult(Flatten(bs), t, pos) >= 0 <==> MatchesSomewhere(bs, t, pos)
      {
        MatchIsExact(bs, Flatten(bs), t, pos);
      }
    }
  }

  lemma OneBranch(b: Branch)
    requires WfBranch(b)
    ensures WfPattern([b]) && JumpsFit([b]) && Flatten([b]) == Terms(b)
    ensures Linked(Terms(b)) && Laid([b], Terms(b)) && (Fine([b]) ==> Recognises([b]))
  {
    assert [b][0] == b;
    FineRecognises([b]);
  }

  lemma FineTwo(p: Piece, next: Piece)
    requires !FooledBy(p, next) && !Zero(next)
    ensures Fine([[p, next]])
  {
    var b := [p, next];
    assert b[1..] == [next];
    FineOne(LeavesPoint(p), next, true);
    assert FineBranch([b], 0);
  }

  lemma FineOne(resumed: bool, p: Piece, last: bool)
    ensures FineFrom(resumed, [p], last) <==> !(resumed && Zero(p) && last)
  {
    assert [p][1..] == [];
  }

  // One text on which matching fails but should not.
  lemma NotRecognised(bs: seq<Branch>, t: Text, pos: nat, a: nat, e: nat)
    requires WfPattern(bs) && Linked(Flatten(bs)) && pos <= |t| && a < |bs| && BranchMatches(bs[a], t, pos, e)
    requires MatchResult(Flatten(bs), t, pos) == -1
    ensures !Recognises(bs)
  {
    assert PatternMatches(bs, t, pos, e);
    assert MatchesSomewhere(bs, t, pos);
  }

  // ---------- maybe_pop_jump and the truncating cast ----------

  function Loops(plus: bool): Quant { if plus then Plus else Star }

  function LoopThen(atom: Atom, plus: bool, next: Piece): Branch { [Rep(atom, Loops(plus)), next] }

  lemma TwoPieces(p: Piece, next: Piece, t: Text, d: nat, m: nat, e: nat)
    requires d <= m <= |t| && e <= |t| && PieceMatches(p, t, d, m) && PieceMatches(next, t, m, e)
    ensures BranchMatches([p, next], t, d, e)
  {
    var b := [p, next];
    assert b[1..] == [next] && b[1..][1..] == [];
    assert BranchMatches(b[1..][1..], t, e, e);
    assert PieceMatches(b[1..][0], t, m, e);
    assert BranchMatches(b[1..], t, m, e);
    assert PieceMatches(b[0], t, d, m);
  }

  // What matching a loop and the piece behind it on a text amounts to.
  lemma LoopEvents(atom: Atom, plus: bool, next: Piece, t: Text, d: nat)
    requires WfPiece(next) && Linked(Terms(LoopThen(atom, plus, next))) && d <= |t|
    ensures var items := Terms(LoopThen(atom, plus, next));
            IsLoop(items, 0) && Ev(items, t, 0, d, 0) == if !plus then Loop(items, t, 0, d, 0)
              else if Unit(atom, t, d) then Loop(items, t, 0, d + 1, if PopChosen(items, 0) then 0 else 1) else []
  {
  }

  // A popped loop takes all it can, and then what follows has to match.
  lemma {:induction false} PoppedRun(atom: Atom, plus: bool, next: Piece, t: Text, d: nat, m: nat)
    requires WfPiece(next) && Linked(Terms(LoopThen(atom, plus, next)))
    requires PopChosen(Terms(LoopThen(atom, plus, next)), 0)
    requires d <= m <= |t| && (forall k: nat | d <= k < m :: Unit(atom, t, k)) && !Unit(atom, t, m)
    ensures var items := Terms(LoopThen(atom, plus, next)); Loop(items, t, 0, d, 0) == Ev(items, t, 1, m, 0)
    decreases m - d
  {
    var items := Terms(LoopThen(atom, plus, next));
    if d < m {
      PoppedRun(atom, plus, next, t, d + 1, m);
      assert Loop(items, t, 0, d, 0) == Loop(items, t, 0, d + 1, 0);
    } else {
      assert Resume(items, t, 1, m, 0) == Ev(items, t, 1, m, 0);
    }
  }

  lemma FooledMisses(atom: Atom, plus: bool, c: byte)
    requires CastFooled(atom, c)
    ensures WfBranch(LoopThen(atom, plus, Exact([c]))) && WfPattern([LoopThen(atom, plus, Exact([c]))])
    ensures Linked(Flatten([LoopThen(atom, plus, Exact([c]))])) && !Recognises([LoopThen(atom, plus, Exact([c]))])
  {
    var (next, b) := (Exact([c]), LoopThen(atom, plus, Exact([c])));
    var t: Text, m: nat := if plus then [c, c] else [c], if plus then 2 else 1;
    var items := Terms(b);
    OneBranch(b);
    NoClashExactly(atom, c);
    LoopEvents(atom, plus, next, t, 0);
    PoppedRun(atom, plus, next, t, if plus then 1 else 0, m);
    assert Ev(items, t, 1, m, 0) == [];
    assert t[m - 1..m] == [c];
    TwoPieces(b[0], next, t, 0, m - 1, m);
    NotRecognised([b], t, 0, 0, m);
  }

  /** `x*c` and `x\+c` are recognised on every text exactly when the test of maybe_pop_jump is not fooled: x is
      not a bracket with a member in the last byte of a full map that contains c. */
  lemma PopIsRightExactly(atom: Atom, plus: bool, c: byte)
    ensures WfPattern([LoopThen(atom, plus, Exact([c]))]) && Linked(Flatten([LoopThen(atom, plus, Exact([c]))]))
    ensures Recognises([LoopThen(atom, plus, Exact([c]))]) <==> !CastFooled(atom, c)
  {
    var b := LoopThen(atom, plus, Exact([c]));
    OneBranch(b);
    if CastFooled(atom, c) {
      FooledMisses(atom, plus, c);
    } else {
      FineTwo(b[0], b[1]);
    }
  }

  lemma LineFooled(atom: Atom, plus: bool, other: byte)
    requires CastFooled(atom, NEWLINE) && other !in atom.members
    ensures WfPattern([LoopThen(atom, plus, Anchor(EndLine))])
    ensures Linked(Flatten([LoopThen(atom, plus, Anchor(EndLine))]))
    ensures !Recognises([LoopThen(atom, plus, Anchor(EndLine))])
  {
    var (next, b) := (Anchor(EndLine), LoopThen(atom, plus, Anchor(EndLine)));
    var t: Text, m: nat := if plus then [NEWLINE, NEWLINE, other] else [NEWLINE, other], if plus then 2 else 1;
    var items := Terms(b);
    OneBranch(b);
    NoClashExactly(atom, NEWLINE);
    LoopEvents(atom, plus, next, t, 0);
    PoppedRun(atom, plus, next, t, if plus then 1 else 0, m);
    assert Ev(items, t, 1, m, 0) == [];
    TwoPieces(b[0], next, t, 0, m - 1, m - 1);
    NotRecognised([b], t, 0, 0, m - 1);
  }

  // A loop over all bytes runs to the end of the text, where `$` holds.
  lemma LineReached(atom: Atom, plus: bool, t: Text, pos: nat)
    requires CastFooled(atom, NEWLINE) && (forall c: byte :: c in atom.members) && pos <= |t|
    ensures WfPattern([LoopThen(atom, plus, Anchor(EndLine))])
    ensures Linked(Flatten([LoopThen(atom, plus, Anchor(EndLine))]))
    ensures var bs := [LoopThen(atom, plus, Anchor(EndLine))];
            MatchResult(Flatten(bs), t, pos) >= 0 <==> MatchesSomewhere(bs, t, pos)
  {
    var (next, b) := (Anchor(EndLine), LoopThen(atom, plus, Anchor(EndLine)));
    var items := Terms(b);
    OneBranch(b);
    NoClashExactly(atom, NEWLINE);
    LoopEvents(atom, plus, next, t, pos);
    var from := if plus then pos + 1 else pos;
    if from <= |t| {
      PoppedRun(atom, plus, next, t, from, |t|);
      assert Ev(items, t, 2, |t|, 0) == [Hit(|t|, true)];
      assert Ev(items, t, 1, |t|, 0) == [Hit(|t|, true)];
      TwoPieces(b[0], next, t, pos, |t|, |t|);
      assert BranchMatches([b][0], t, pos, |t|);
      assert PatternMatches([b], t, pos, |t|);
    } else {
      forall e: nat ensures !PatternMatches([b], t, pos, e) { NothingLeft(atom, next, t, e); }
    }
  }

  lemma NothingLeft(atom: Atom, next: Piece, t: Text, e: nat)
    ensures !PatternMatches([LoopThen(atom, true, next)], t, |t|, e)
  {
    var b := LoopThen(atom, true, next);
    assert [b][0] == b;
    forall m: nat | m == |t| ensures !PieceMatches(b[0], t, |t|, m) { }
  }

  /** `x*$` and `x\+$` are recognised on every text exactly when x does not fool the test about a newline, or
      matches every byte, so that the loop can end only with the text. */
  lemma LineIsRightExactly(atom: Atom, plus: bool)
    ensures WfPattern([LoopThen(atom, plus, Anchor(EndLine))])
    ensures Linked(Flatten([LoopThen(atom, plus, Anchor(EndLine))]))
    ensures Recognises([LoopThen(atom, plus, Anchor(EndLine))]) <==>
            !CastFooled(atom, NEWLINE) || forall c: byte :: c in atom.members
  {
    var b := LoopThen(atom, plus, Anchor(EndLine));
    OneBranch(b);
    if !CastFooled(atom, NEWLINE) {
      FineTwo(b[0], b[1]);
    } else if other: byte :| other !in atom.members {
      LineFooled(atom, plus, other);
    } else {
      forall t: Text, pos: nat | pos <= |t| && MatchResult(Flatten([b]), t, pos) != -2
        ensures MatchResult(Flatten([b]), t, pos) >= 0 <==> MatchesSomewhere([b], t, pos)
      {
        LineReached(atom, plus, t, pos);
      }
    }
  }

  // ---------- The code after `fail:` and `\{0\}` ----------

  function ZeroBefore(y: Atom, p: Piece): Branch { [Rep(y, Interval(0, 0)), p] }

  function PointZero(x: Atom, q: Quant, y: Atom, p: Piece): Branch { [Rep(x, q)] + ZeroBefore(y, p) }

  // The text of n bytes c.
  function Copies(c: byte, n: nat): (t: Text)
    ensures |t| == n && forall k | 0 <= k < n :: t[k] == c
  {
    if n == 0 then [] else [c] + Copies(c, n - 1)
  }

  lemma ZeroMatches(y: Atom, p: Piece, t: Text, d: nat)
    requires d <= |t| && Quick(p)
    ensures BranchMatches(ZeroBefore(y, p), t, d, d)
  {
    TwoPieces(Rep(y, Interval(0, 0)), p, t, d, d, d);
  }

  lemma {:induction false} CountDropped(items: seq<Item>, t: Text, c: nat)
    requires Linked(items) && IsCounted(items, 0) && Dropped(items, 1)
    requires |t| == items[0].piece.q.lo < items[0].piece.q.hi
    requires c <= |t| && forall k: nat | k < |t| :: Unit(items[0].piece.atom, t, k)
    ensures Count(items, t, 0, c, c, 0) == []
    decreases |t| - c
  {
    if c < |t| {
      CountDropped(items, t, c + 1);
      assert Again(items, t, 0, c + 1, c + 1, 0) == Count(items, t, 0, c + 1, c + 1, 0);
    }
  }

  // On just as many repetitions as are needed, the failure point is dropped, and nothing is left to try.
  lemma PointDropped(items: seq<Item>, t: Text)
    requires Linked(items) && |items| > 1 && items[0].Term? && LeavesPoint(items[0].piece) && Dropped(items, 1)
    requires |t| == items[0].piece.q.Least() && forall k: nat | k < |t| :: Unit(items[0].piece.atom, t, k)
    requires Cycles(items[0].piece) ==> !PopChosen(items, 0)
    ensures MatchResult(items, t, 0) == -1
  {
    var q := items[0].piece.q;
    assert Resume(items, t, 1, |t|, 0) == [] && Resume(items, t, 1, |t|, 1) == [];
    match q {
      case Star => assert Loop(items, t, 0, 0, 0) == [];
      case Plus => assert Loop(items, t, 0, 1, 1) == [];
      case Quest =>
      case Interval(lo, hi) =>
        assert WfItem(items[0]);
        CountDropped(items, t, 0);
    }
    assert Ev(items, t, 0, 0, 0) == [];
  }

  lemma PointBranch(x: Atom, q: Quant, y: Atom, p: Piece)
    requires WfPiece(Rep(x, q)) && WfPiece(p)
    ensures var b := PointZero(x, q, y, p);
            && WfBranch(b) && |b| == 3 && b[0] == Rep(x, q) && b[1] == Rep(y, Interval(0, 0)) && b[2] == p
            && b[1..] == ZeroBefore(y, p)
  {
  }

  lemma PointMisses(x: Atom, q: Quant, y: Atom, p: Piece, c: byte)
    requires WfPiece(Rep(x, q)) && WfPiece(p) && Choice(q) && Quick(p) && (q.Least() > 0 ==> AtomMatches(x, c))
    ensures WfPattern([PointZero(x, q, y, p)]) && Linked(Flatten([PointZero(x, q, y, p)]))
    ensures !Recognises([PointZero(x, q, y, p)])
  {
    var (b, t) := (PointZero(x, q, y, p), Copies(c, q.Least()));
    PointBranch(x, q, y, p);
    OneBranch(b);
    QuickIs(p);
    PointDropped(Terms(b), t);
    ZeroMatches(y, p, t, |t|);
    assert PieceMatches(b[0], t, 0, |t|);
    assert BranchMatches(b, t, 0, |t|);
    NotRecognised([b], t, 0, 0, |t|);
  }

  // A repetition that is needed and never possible: nothing matches, and nothing is reported.
  lemma Hopeless(x: Atom, q: Quant, y: Atom, p: Piece, t: Text, pos: nat)
    requires WfPiece(Rep(x, q)) && WfPiece(p) && q.Least() > 0 && (forall c: byte :: !AtomMatches(x, c)) && pos <= |t|
    ensures WfPattern([PointZero(x, q, y, p)]) && Linked(Flatten([PointZero(x, q, y, p)]))
    ensures MatchResult(Flatten([PointZero(x, q, y, p)]), t, pos) == -1
    ensures !MatchesSomewhere([PointZero(x, q, y, p)], t, pos)
  {
    var b := PointZero(x, q, y, p);
    var items := Terms(b);
    PointBranch(x, q, y, p);
    OneBranch(b);
    assert !Unit(x, t, pos);
    assert Ev(items, t, 0, pos, 0) == [] by { if q.Interval? { assert Count(items, t, 0, 0, pos, 0) == []; } }
    forall e: nat ensures !PatternMatches([b], t, pos, e) {
      forall m: nat | pos <= m <= |t| ensures !PieceMatches(b[0], t, pos, m) {
        if pos < m { assert !Unit(x, t, pos); }
      }
    }
  }

  /** A quantifier that leaves a failure point, `\{0\}` behind it, and a piece p: the pattern is recognised on
      every text exactly when p is not under `*` or `\?`, or the quantifier asks for a character that no byte
      is. */
  lemma DropIsHarmlessExactly(x: Atom, q: Quant, y: Atom, p: Piece)
    requires WfPiece(Rep(x, q)) && WfPiece(p) && Choice(q)
    ensures WfPattern([PointZero(x, q, y, p)]) && Linked(Flatten([PointZero(x, q, y, p)]))
    ensures Recognises([PointZero(x, q, y, p)]) <==>
              !Quick(p) || (q.Least() > 0 && forall c: byte :: !AtomMatches(x, c))
  {
    var b := PointZero(x, q, y, p);
    PointBranch(x, q, y, p);
    OneBranch(b);
    if !Quick(p) {
      FineThree(b);
    } else if q.Least() > 0 && forall c: byte :: !AtomMatches(x, c) {
      forall t: Text, pos: nat | pos <= |t|
        ensures MatchResult(Flatten([b]), t, pos) == -1 && !MatchesSomewhere([b], t, pos)
      {
        Hopeless(x, q, y, p, t, pos);
      }
    } else {
      var c: byte :| q.Least() > 0 ==> AtomMatches(x, c);
      PointMisses(x, q, y, p, c);
    }
  }

  lemma FineThree(b: Branch)
    requires |b| == 3 && Zero(b[1]) && !Quick(b[2])
    ensures Fine([b])
  {
    assert b[1..][1..] == [b[2]];
    FineOne(false, b[2], true);
    assert FineFrom(LeavesPoint(b[0]), b[1..], true);
    assert FineBranch([b], 0);
  }

  // ---------- `\{0\}` at the beginning of an alternative ----------

  lemma PieceShort(p: Piece)
    requires WfPiece(p)
    ensures |PieceCode(p)| <= 300
  {
    hide Lo, Hi;
  }

  lemma {:induction false} BranchShort(b: Branch)
    requires WfBranch(b)
    ensures |BranchCode(b)| <= 300 * |b|
    decreases |b|
  {
    hide PieceCode, BranchCode;
    if b == [] {
      NoCode();
    } else {
      var (init, p) := (b[..|b| - 1], b[|b| - 1]);
      assert WfPiece(p) && b == init + [p];
      BranchShort(init);
      BranchSnoc(init, p);
      PieceShort(p);
    }
  }

  lemma NoCode()
    ensures WfBranch([]) && BranchCode([]) == []
  {
  }

  function ZeroSecond(s: seq<byte>, y: Atom, p: Piece): seq<Branch> { [[Exact(s)], ZeroBefore(y, p)] }

  lemma ZeroSecondLaid(s: seq<byte>, y: Atom, p: Piece)
    requires 1 <= |s| <= 255 && WfPiece(p)
    ensures var bs := ZeroSecond(s, y, p);
            && WfPattern(bs) && JumpsFit(bs) && Linked(Flatten(bs)) && Laid(bs, Flatten(bs))
            && (Fine(bs) ==> Recognises(bs))
            && |Flatten(bs)| == 5 && Flatten(bs)[0].Fork? && Flatten(bs)[0].span == 3
            && Flatten(bs)[1] == Term(Exact(s))
            && Flatten(bs)[2].Past? && Flatten(bs)[3] == Term(Rep(y, Interval(0, 0))) && Flatten(bs)[4] == Term(p)
  {
    hide BranchCode;
    var bs := ZeroSecond(s, y, p);
    BranchShort(bs[0]);
    BranchShort(bs[1]);
    FineRecognises(bs);
    var items := Flatten(bs);
    assert bs[1..] == [bs[1]];
    assert items == Head(bs[0], bs[1], true) + Terms(bs[1]);
  }

  // The empty text is matched by the second alternative, which is never tried.
  lemma ZeroSecondMisses(s: seq<byte>, y: Atom, p: Piece)
    requires 1 <= |s| <= 255 && WfPiece(p) && Quick(p)
    ensures WfPattern(ZeroSecond(s, y, p)) && Linked(Flatten(ZeroSecond(s, y, p))) && !Recognises(ZeroSecond(s, y, p))
  {
    hide BranchCode, Flatten;
    var bs, t: Text := ZeroSecond(s, y, p), [];
    ZeroSecondLaid(s, y, p);
    var items := Flatten(bs);
    QuickIs(p);
    assert Dropped(items, 3);
    assert Ev(items, t, 1, 0, 1) == [];
    assert Ev(items, t, 0, 0, 0) == [];
    ZeroMatches(y, p, t, 0);
    NotRecognised(bs, t, 0, 1, 0);
  }

  /** `s\|y\{0\}p` with a literal s is recognised on every text exactly when p is not under `*` or `\?`. */
  lemma SecondIsTriedExactly(s: seq<byte>, y: Atom, p: Piece)
    requires 1 <= |s| <= 255 && WfPiece(p)
    ensures WfPattern(ZeroSecond(s, y, p)) && Linked(Flatten(ZeroSecond(s, y, p)))
    ensures Recognises(ZeroSecond(s, y, p)) <==> !Quick(p)
  {
    hide Flatten, BranchCode;
    var bs := ZeroSecond(s, y, p);
    ZeroSecondLaid(s, y, p);
    if Quick(p) {
      ZeroSecondMisses(s, y, p);
    } else {
      FineOne(false, Exact(s), false);
      FineOne(false, p, true);
      assert bs[1][1..] == [p];
      assert FineBranch(bs, 0) && FineBranch(bs, 1);
    }
  }

  // ---------- The failure stack ----------

  ghost predicate All(t: Text, c: byte) { forall k: nat | k < |t| :: t[k] == c }

  lemma {:induction false} StackFills(c: byte, t: Text, d: nat)
    requires All(t, c) && d <= MAX_POINTS <= |t| && Linked(Terms(LoopThen(Lit(c), false, Exact([c]))))
    ensures var evs := Loop(Terms(LoopThen(Lit(c), false, Exact([c]))), t, 0, d, d); evs != [] && evs[0] == Overflow
    decreases MAX_POINTS - d
  {
    var items := Terms(LoopThen(Lit(c), false, Exact([c])));
    if d < MAX_POINTS {
      assert Unit(Lit(c), t, d) && !PopChosen(items, 0);
      StackFills(c, t, d + 1);
      assert Loop(items, t, 0, d, d) == Loop(items, t, 0, d + 1, d + 1) + Resume(items, t, 1, d, d);
    }
  }

  /** The bound on the text is sharp: `c*c` overflows the stack on exactly the runs of c of 2560 bytes
      or more. */
  lemma OverflowExactly(c: byte, t: Text)
    requires All(t, c)
    ensures var bs := [LoopThen(Lit(c), false, Exact([c]))];
            WfPattern(bs) && Linked(Flatten(bs)) && (MatchResult(Flatten(bs), t, 0) == -2 <==> |t| >= MAX_POINTS)
  {
    var b := LoopThen(Lit(c), false, Exact([c]));
    OneBranch(b);
    if |t| >= MAX_POINTS {
      StackFills(c, t, 0);
      assert Ev(Terms(b), t, 0, 0, 0) == Loop(Terms(b), t, 0, 0, 0);
    } else {
      ShortTextsFit([b], Terms(b), t, 0);
    }
  }

  // ---------- The last alternative ----------

  lemma TwoLiterals(x: seq<byte>, y: seq<byte>)
    requires 1 <= |x| <= 255 && 1 <= |y| <= 255
    ensures var bs := [[Exact(x)], [Exact(y)]];
            && WfPattern(bs) && Linked(Flatten(bs)) && |Flatten(bs)| == 4
            && Flatten(bs)[0].Fork? && Flatten(bs)[0].span == 3 && Flatten(bs)[1] == Term(Exact(x))
            && Flatten(bs)[2].Past? && Flatten(bs)[2].hop == 2 && Flatten(bs)[3] == Term(Exact(y))
  {
    hide BranchCode;
    var bs := [[Exact(x)], [Exact(y)]];
    BranchShort(bs[0]);
    BranchShort(bs[1]);
    LaidOut(bs);
    assert bs[1..] == [bs[1]];
    assert Flatten(bs) == Head(bs[0], bs[1], true) + Terms(bs[1]);
  }

  lemma TwoLiteralEvents(items: seq<Item>, x: seq<byte>, y: seq<byte>, t: Text, pos: nat)
    requires Linked(items) && |items| == 4 && items[0].Fork? && items[0].span == 3 && items[1] == Term(Exact(x))
    requires items[2].Past? && items[2].hop == 2 && items[3] == Term(Exact(y)) && pos <= |t|
    requires Occurs(x, t, pos) && Occurs(y, t, pos)
    ensures Ev(items, t, 0, pos, 0) == [Hit(pos + |x|, false), Hit(pos + |y|, true)]
  {
    assert Ev(items, t, 4, pos + |x|, 1) == [Hit(pos + |x|, false)];
    assert Ev(items, t, 2, pos + |x|, 1) == Ev(items, t, 4, pos + |x|, 1);
    assert Ev(items, t, 1, pos, 1) == [Hit(pos + |x|, false)];
    assert Ev(items, t, 4, pos + |y|, 0) == [Hit(pos + |y|, true)];
    assert Ev(items, t, 3, pos, 0) == [Hit(pos + |y|, true)];
    assert Resume(items, t, 3, pos, 0) == Ev(items, t, 3, pos, 0);
  }

  /** `x\|xy` with literals: wherever the longer one occurs short of the end of the text, the length of
      the shorter one is returned; at the end of the text, the length of the longer one. */
  lemma ShorterAlternativeWins(x: seq<byte>, y: seq<byte>, t: Text, pos: nat)
    requires 1 <= |x| < |y| <= 255 && y[..|x|] == x && pos <= |t| && Occurs(y, t, pos)
    ensures WfPattern([[Exact(x)], [Exact(y)]]) && Linked(Flatten([[Exact(x)], [Exact(y)]]))
    ensures MatchResult(Flatten([[Exact(x)], [Exact(y)]]), t, pos) == if pos + |y| < |t| then |x| else |y|
  {
    hide Flatten, Ev, Linked;
    var bs := [[Exact(x)], [Exact(y)]];
    TwoLiterals(x, y);
    assert Occurs(x, t, pos) by { assert t[pos..pos + |x|] == t[pos..pos + |y|][..|x|]; }
    TwoLiteralEvents(Flatten(bs), x, y, t, pos);
    var evs := Ev(Flatten(bs), t, 0, pos, 0);
    assert evs[1..] == [Hit(pos + |y|, true)];
    assert Outcome(evs[1..], pos + |x|, |t|) == if pos + |y| == |t| then pos + |y| else pos + |x|;
    assert Outcome(evs, -1, |t|) == Outcome(evs[1..], pos + |x|, |t|);
  }
}
