/**
 Which patterns the matcher is right about, stated on the pattern: no loop over a bracket that fools the
 test of maybe_pop_jump about what follows, and no `\{0\}` where a failure point resumes with `*`, `\?` or
 the end of the pattern behind it.
 */
module RegexFine {
  import opened Bytes
  import opened RegexAst
  import opened RegexCode
  import opened RegexTrace
  import opened RegexGreedy
  import opened RegexLayout
  import opened RegexTheorems
  import opened RegexSource

  predicate Zero(p: Piece) { p.Rep? && p.q.Interval? && p.q.hi == 0 }

  // The code begins with an on_failure_jump.
  predicate Quick(p: Piece) { p.Rep? && (p.q.Star? || p.q.Quest?) }

  // The code leaves a failure point that resumes behind it.
  predicate LeavesPoint(p: Piece) { p.Rep? && Choice(p.q) }

  predicate Cycles(p: Piece) { p.Rep? && (p.q.Star? || p.q.Plus?) }

  // The loop p would be popped although what follows can begin with one of its bytes.
  predicate FooledBy(p: Piece, next: Piece) {
    Cycles(p)
    && match next
       case Exact(s) => s != [] && CastFooled(p.atom, s[0])
       case Anchor(EndLine) => CastFooled(p.atom, NEWLINE)
       case _ => false
  }

  // From piece b[0] on; `resumed`: a failure point resumes there; `last`: the branch ends the pattern.
  predicate FineFrom(resumed: bool, b: Branch, last: bool)
    decreases |b|
  {
    b != [] ==>
      && (resumed && Zero(b[0]) ==> if |b| > 1 then !Quick(b[1]) else !last)
      && (|b| > 1 ==> !FooledBy(b[0], b[1]))
      && FineFrom(LeavesPoint(b[0]), b[1..], last)
  }

  predicate FineBranch(bs: seq<Branch>, a: nat)
    requires a < |bs|
  {
    FineFrom(a == |bs| - 1 && |bs| > 1, bs[a], a == |bs| - 1)
  }

  predicate Fine(bs: seq<Branch>) { forall a: nat | a < |bs| :: FineBranch(bs, a) }

  // ---------- Grouping literals does not matter ----------

  lemma {:induction false} FineSingles(resumed: bool, s: seq<byte>, x: Branch, last: bool)
    requires s != []
    ensures FineFrom(resumed, Singles(s) + x, last) <==> FineFrom(false, x, last)
    decreases |s|
  {
    var b := Singles(s) + x;
    assert b[0] == Exact([s[0]]);
    if |s| == 1 {
      assert b[1..] == x;
    } else {
      assert b[1..] == Singles(s[1..]) + x;
      FineSingles(false, s[1..], x, last);
    }
  }

  lemma UngroupHead(b: Branch)
    requires WfBranch(b)
    ensures b != [] ==> Ungroup(b) != []
    ensures b != [] && b[0].Exact? ==> b[0].s != [] && Ungroup(b)[0] == Exact([b[0].s[0]])
    ensures b != [] && !b[0].Exact? ==> Ungroup(b)[0] == b[0]
  {
    if b != [] { assert WfPiece(b[0]); }
  }

  lemma {:induction false} FineUngroup(resumed: bool, b: Branch, last: bool)
    requires WfBranch(b)
    ensures FineFrom(resumed, b, last) <==> FineFrom(resumed, Ungroup(b), last)
    decreases |b|
  {
    if b != [] {
      var (p, rest) := (b[0], b[1..]);
      assert WfPiece(p);
      FineUngroup(LeavesPoint(p), rest, last);
      if p.Exact? {
        FineSingles(resumed, p.s, Ungroup(rest), last);
      } else {
        assert Ungroup(b)[1..] == Ungroup(rest);
        UngroupHead(rest);
      }
    }
  }

  lemma FineUngrouped(bs: seq<Branch>)
    requires WfPattern(bs)
    ensures Fine(bs) <==> Fine(Ungrouped(bs))
  {
    hide FineFrom, WfBranch, Ungroup;
    forall a: nat | a < |bs| ensures FineBranch(bs, a) <==> FineBranch(Ungrouped(bs), a) {
      FineUngroup(a == |bs| - 1 && |bs| > 1, bs[a], a == |bs| - 1);
    }
  }

  // ---------- Fine patterns are those the theorems are about ----------

  // What is asked of item i: its loop is popped rightly, and no failure point is dropped or looks past the end at it.
  ghost predicate ItemFine(items: seq<Item>, i: nat) {
    && (IsLoop(items, i) ==> PopSound(items, i))
    && (Landing(items, i) ==> !Dropped(items, i))
    && (i < |items| && Landing(items, i) && Skipped(items[i]) ==> i + 1 < |items|)
  }

  lemma SoundIsItems(items: seq<Item>)
    ensures Sound(items) && Grounded(items) <==> forall i: nat :: ItemFine(items, i)
  {
    if forall i: nat :: ItemFine(items, i) {
      forall i: nat | IsLoop(items, i) ensures PopSound(items, i) { assert ItemFine(items, i); }
      forall i: nat | Landing(items, i) ensures !Dropped(items, i) { assert ItemFine(items, i); }
      forall i: nat | i < |items| && Landing(items, i) && Skipped(items[i])
        ensures i + 1 < |items|
      {
        assert ItemFine(items, i);
      }
    }
  }

  // Items that are not pieces ask for nothing.
  lemma OthersFine(items: seq<Item>, i: nat)
    requires i >= |items| || !items[i].Term?
    ensures ItemFine(items, i)
  {
  }

  // The items of the piece b[0], at i, and of what follows it.
  ghost predicate PieceAt(items: seq<Item>, i: nat, b: Branch, last: bool) {
    b != [] && i < |items| && items[i] == Term(b[0])
    && if |b| > 1 then i + 1 < |items| && items[i + 1] == Term(b[1])
       else if last then i + 1 == |items| else i + 1 < |items| && items[i + 1].Past?
  }

  lemma LoopFine(items: seq<Item>, i: nat, b: Branch, last: bool)
    requires PieceAt(items, i, b, last)
    ensures (IsLoop(items, i) ==> PopSound(items, i)) <==> (|b| > 1 ==> !FooledBy(b[0], b[1]))
  {
    if IsLoop(items, i) && |b| > 1 {
      match b[1]
      case Exact(s) => if s != [] { NoClashExactly(b[0].atom, s[0]); }
      case Anchor(spot) => if spot.EndLine? { NoClashExactly(b[0].atom, NEWLINE); }
      case _ =>
    }
  }

  lemma PointFine(items: seq<Item>, i: nat, b: Branch, last: bool)
    requires PieceAt(items, i, b, last)
    ensures Landing(items, i) ==>
              (!Dropped(items, i) && (Skipped(items[i]) ==> i + 1 < |items|)
               <==> (Zero(b[0]) ==> if |b| > 1 then !Quick(b[1]) else !last))
  {
    if |b| > 1 { QuickIs(b[1]); }
  }

  lemma PieceFine(items: seq<Item>, i: nat, resumed: bool, b: Branch, last: bool)
    requires PieceAt(items, i, b, last) && (resumed <==> Landing(items, i))
    ensures ItemFine(items, i) <==> (resumed && Zero(b[0]) ==> if |b| > 1 then !Quick(b[1]) else !last)
                                    && (|b| > 1 ==> !FooledBy(b[0], b[1]))
  {
    hide PopSound, Dropped, Landing, FooledBy;
    LoopFine(items, i, b, last);
    PointFine(items, i, b, last);
  }

  lemma QuickIs(p: Piece)
    ensures FirstOp(Term(p)) == ON_FAILURE_JUMP <==> Quick(p)
  {
  }

  // Item j of those from s on.
  ghost predicate FineAt(items: seq<Item>, s: nat, j: nat) { ItemFine(items, s + j) }

  // Pieces k and following of a branch that begins at item s.
  lemma {:induction false} PiecesFine(items: seq<Item>, s: nat, b: Branch, k: nat, resumed: bool, last: bool)
    requires k <= |b| && s + |b| <= |items| && (forall j: nat | j < |b| :: items[s + j] == Term(b[j]))
    requires if last then s + |b| == |items| else s + |b| < |items| && items[s + |b|].Past?
    requires k < |b| ==> (resumed <==> Landing(items, s + k))
    ensures FineFrom(resumed, b[k..], last) <==> forall j: nat | k <= j < |b| :: FineAt(items, s, j)
    decreases |b| - k
  {
    if k < |b| {
      var rest := b[k..];
      assert rest[0] == b[k] && rest[1..] == b[k + 1..] && (|rest| > 1 ==> rest[1] == b[k + 1]);
      assert items[s + k] == Term(b[k]) && (k + 1 < |b| ==> items[s + (k + 1)] == Term(b[k + 1]));
      hide ItemFine, FooledBy, Dropped, Zero, Quick;
      assert k + 1 < |b| ==> (LeavesPoint(b[k]) <==> Landing(items, s + k + 1));
      PieceFine(items, s + k, resumed, rest, last);
      PiecesFine(items, s, b, k + 1, LeavesPoint(b[k]), last);
      assert FineAt(items, s, k) <==> ItemFine(items, s + k);
    }
  }

  // The first piece of the last of several alternatives is where a failure point resumes.
  lemma FirstResumed(bs: seq<Branch>, items: seq<Item>, a: nat)
    requires Laid(bs, items) && a < |bs| && bs[a] != []
    ensures Landing(items, PiecesOf(bs, a)) <==> a == |bs| - 1 && |bs| > 1
  {
    assert AltAt(bs, items, a);
    if a == |bs| - 1 && a > 0 {
      assert AltAt(bs, items, a - 1);
      assert PiecesOf(bs, a) - 1 == PiecesOf(bs, a - 1) + |bs[a - 1]|;
    }
  }

  ghost predicate PiecesAllFine(bs: seq<Branch>, items: seq<Item>, a: nat)
    requires a < |bs|
  {
    forall j: nat | j < |bs[a]| :: FineAt(items, PiecesOf(bs, a), j)
  }

  lemma BranchFine(bs: seq<Branch>, items: seq<Item>, a: nat)
    requires Laid(bs, items) && a < |bs|
    ensures FineBranch(bs, a) <==> PiecesAllFine(bs, items, a)
  {
    hide FineAt, FineFrom;
    assert AltAt(bs, items, a);
    if bs[a] != [] { FirstResumed(bs, items, a); }
    assert bs[a][0..] == bs[a];
    PiecesFine(items, PiecesOf(bs, a), bs[a], 0, a == |bs| - 1 && |bs| > 1, a == |bs| - 1);
  }

  // Every piece among the items belongs to an alternative.
  lemma {:induction false} Owner(bs: seq<Branch>, items: seq<Item>, i: nat, n: nat) returns (a: nat, j: nat)
    requires Laid(bs, items) && i < |items| && items[i].Term? && n < |bs| && Begin(bs, n) <= i
    ensures a < |bs| && j < |bs[a]| && i == PiecesOf(bs, a) + j
    decreases |bs| - n
  {
    assert AltAt(bs, items, n);
    if i < PiecesOf(bs, n) + |bs[n]| {
      a, j := n, i - PiecesOf(bs, n);
    } else {
      a, j := Owner(bs, items, i, n + 1);
    }
  }

  /** Fine patterns are exactly those whose code has no loop popped wrongly, no failure point dropped, and
      none that looks past the end. */
  lemma FineExactly(bs: seq<Branch>, items: seq<Item>)
    requires Laid(bs, items)
    ensures Fine(bs) <==> Sound(items) && Grounded(items)
  {
    assert |bs| > 0;
    hide ItemFine, FineBranch, Sound, Grounded, Laid;
    SoundIsItems(items);
    forall a: nat | a < |bs| ensures FineBranch(bs, a) <==> PiecesAllFine(bs, items, a) { BranchFine(bs, items, a); }
    if Fine(bs) {
      forall i: nat ensures ItemFine(items, i) {
        if i >= |items| || !items[i].Term? {
          OthersFine(items, i);
        } else {
          var a, j := Owner(bs, items, i, 0);
          assert PiecesAllFine(bs, items, a);
          assert FineAt(items, PiecesOf(bs, a), j);
        }
      }
    }
  }
}
