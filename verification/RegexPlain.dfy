/** Patterns without groups as trees: the same code, and at most two addresses to remember. */
module RegexPlain {
  import opened Bytes
  import opened RegexAst
  import opened RegexCode
  import opened RegexGreedy
  import opened RegexLayout
  import opened RegexSource
  import opened RegexBuild
  import opened RegexTree
  import opened RegexFlow
  import opened RegexNested
  import opened RegexFastmap
  import opened RegexFirst

  function TreePiece(p: Piece): Node { if p.Rep? then Many(Leaf(AtomPiece(p.atom)), p.q) else Leaf(p) }

  function TreeBranch(b: Branch): (n: Node)
    ensures !n.Either?
  {
    if b == [] then Empty else Cat(TreePiece(b[0]), TreeBranch(b[1..]))
  }

  function TreePattern(bs: seq<Branch>): Node {
    if bs == [] then Empty else if |bs| == 1 then TreeBranch(bs[0]) else Either(TreeBranch(bs[0]), TreePattern(bs[1..]))
  }

  // ---------- The same code ----------

  lemma PieceTree(p: Piece)
    requires WfPiece(p)
    ensures WfNode(TreePiece(p)) && Code(TreePiece(p)) == PieceCode(p) && Fits(TreePiece(p)) && |PieceCode(p)| > 0
  {
    hide RepCode, MapLen, MapBytes;
    if p.Rep? {
      RepLength(AtomCode(p.atom), p.q);
      assert PieceCode(AtomPiece(p.atom)) == AtomCode(p.atom);
    }
  }

  lemma {:induction false} BranchTree(b: Branch)
    requires WfBranch(b)
    ensures WfNode(TreeBranch(b)) && Code(TreeBranch(b)) == BranchCode(b) && Fits(TreeBranch(b))
    ensures Solid(TreeBranch(b)) <==> b != []
    decreases |b|
  {
    hide PieceCode;
    if b != [] {
      PieceTree(b[0]);
      BranchTree(b[1..]);
      TermsWf(b);
      assert Terms(b)[1..] == Terms(b[1..]);
    }
  }

  lemma {:induction false} PatternTree(bs: seq<Branch>)
    requires WfPattern(bs)
    ensures WfNode(TreePattern(bs)) && Code(TreePattern(bs)) == PatternCode(bs)
    ensures Trailing(TreePattern(bs)) <==> |bs| > 1 && bs[|bs| - 1] == []
    ensures JumpsFit(bs) ==> Fits(TreePattern(bs))
    decreases |bs|
  {
    hide BranchCode, Op1, HeadCode, WfBranch, Code, Fits;
    assert WfBranch(bs[0]);
    BranchTree(bs[0]);
    if |bs| == 1 {
      OneCode(bs);
    } else {
      var rest := bs[1..];
      PatternTree(rest);
      assert WfBranch(bs[1]);
      BranchTree(bs[1]);
      PatternCons(bs);
      EitherIs(TreePattern(bs));
      PastIs(TreePattern(rest));
      if JumpsFit(bs) {
        assert |BranchCode(bs[0])| + 3 <= MAX_NUMBER && |BranchCode(bs[1])| + 3 <= MAX_NUMBER;
        assert |rest| > 1 ==> JumpsFit(rest);
        EitherFits(TreeBranch(bs[0]), TreePattern(rest));
      }
    }
  }

  lemma OneCode(bs: seq<Branch>)
    requires WfPattern(bs) && |bs| == 1
    ensures PatternCode(bs) == BranchCode(bs[0])
  {
    assert bs[..0] == [];
  }

  lemma EitherFits(x: Node, y: Node)
    requires WfNode(Either(x, y)) && Fits(x) && Fits(y) && |Code(x)| + 3 <= MAX_NUMBER && PastRel(y) <= MAX_NUMBER
    ensures Fits(Either(x, y))
  {
    hide Code, PastRel;
  }

  // ---------- How many addresses are remembered ----------

  // The on_failure_jumps before alternatives.
  ghost function Forks(n: Node, base: nat): set<nat>
    requires WfNode(n)
  {
    if n.Either? then {base} + Forks(n.y, base + 6 + |Code(n.x)|) else {}
  }

  // An address at an alternative, and one behind the character the exploration is at.
  ghost function Need(code: seq<byte>, forks: set<nat>): nat -> nat {
    (p: nat) => if p in forks then 2 else if p < |code| && Eating(code[p]) then 0 else 1
  }

  ghost predicate PushEats(code: seq<byte>, own: set<nat>) {
    forall p: nat | p in own && Whole(code, p) && Pushing(code[p]) ::
      p + Size(code, p) < |code| && Eating(code[p + Size(code, p)])
  }

  lemma AtomEats(atom: Atom, code: seq<byte>, base: nat)
    requires Stands(AtomCode(atom), code, base)
    ensures base < |code| && Eating(code[base])
  {
    assert code[base + 0] == AtomCode(atom)[0];
  }

  // The head of a loop or the like has the character behind it.
  lemma RepEats(code: seq<byte>, base: nat, m: nat, q: Quant, p: nat)
    requires RepSites(code, base, m, q) && base + m + Extra(q) <= |code| && m > 0
    requires base + BodyOff(q) < |code| && Eating(code[base + BodyOff(q)])
    requires p in Shifted(Heads(q), base) || (Tailed(q) && p == base + BodyOff(q) + m)
    ensures p < |code| && (Whole(code, p) && Pushing(code[p]) ==>
              p + Size(code, p) < |code| && Eating(code[p + Size(code, p)]))
  {
    hide NumAt;
  }

  lemma PieceEats(code: seq<byte>, starts: set<nat>, p: Piece, base: nat)
    requires WfPiece(p) && WfNode(TreePiece(p)) && Placed(code, starts, TreePiece(p), base)
    ensures PushEats(code, Starts(TreePiece(p), base))
  {
    if p.Rep? { RepPieceEats(code, starts, p, base); } else { LeafEats(code, p, base); }
  }

  lemma LeafEats(code: seq<byte>, p: Piece, base: nat)
    requires WfPiece(p) && !p.Rep? && Stands(PieceCode(p), code, base)
    ensures PushEats(code, {base})
  {
    hide MapLen, MapBytes;
    assert code[base + 0] == PieceCode(p)[0];
  }

  lemma RepPieceEats(code: seq<byte>, starts: set<nat>, p: Piece, base: nat)
    requires WfPiece(p) && p.Rep? && WfNode(TreePiece(p)) && Placed(code, starts, TreePiece(p), base)
    ensures PushEats(code, Starts(TreePiece(p), base))
  {
    hide Code, Starts, RepSites, Whole, Size, Heads, Stands;
    var (n, q) := (TreePiece(p), p.q);
    ManyPlaced(code, starts, n, base);
    ManyStarts(n, base);
    ManyIs(n);
    AtomPieceIs(p.atom);
    LeafStarts(AtomPiece(p.atom), base + BodyOff(q));
    AtomEats(p.atom, code, base + BodyOff(q));
    forall v: nat | v in Starts(n, base) && v < |code| && Whole(code, v) && Pushing(code[v])
      ensures v + Size(code, v) < |code| && Eating(code[v + Size(code, v)])
    {
      if v != base + BodyOff(q) { RepEats(code, base, |Code(n.body)|, q, v); }
    }
  }

  lemma LeafStarts(p: Piece, base: nat)
    requires WfNode(Leaf(p))
    ensures Starts(Leaf(p), base) == {base}
  {
  }

  lemma AtomPieceIs(atom: Atom)
    ensures WfNode(Leaf(AtomPiece(atom))) && Code(Leaf(AtomPiece(atom))) == AtomCode(atom)
  {
    hide MapLen, MapBytes;
  }

  lemma {:induction false} BranchEats(code: seq<byte>, starts: set<nat>, b: Branch, base: nat)
    requires WfBranch(b) && WfNode(TreeBranch(b)) && Placed(code, starts, TreeBranch(b), base)
    ensures PushEats(code, Starts(TreeBranch(b), base))
    decreases |b|
  {
    hide Code, Starts, Placed, Whole, Size;
    if b == [] {
      EmptyStarts(base);
    } else {
      var (x, y) := (TreePiece(b[0]), TreeBranch(b[1..]));
      CatParts(code, starts, x, y, base);
      CatIs(x, y, base);
      PieceEats(code, starts, b[0], base);
      BranchEats(code, starts, b[1..], base + |Code(x)|);
    }
  }

  lemma EmptyStarts(base: nat)
    ensures Starts(Empty, base) == {}
  {
  }

  // Apart from the jumps before alternatives, nothing leads to one of them, and what pushes has the
  // character behind it.
  ghost predicate Sparse(code: seq<byte>, own: set<nat>, forks: set<nat>) {
    && (forall p: nat, r: nat | p in own && Leads(code, p, r) ::
          r in forks ==> p in forks && Pushing(code[p]) && r != p + Size(code, p))
    && PushEats(code, own - forks)
  }

  lemma {:induction false} ForksFrom(n: Node, base: nat)
    requires WfNode(n)
    ensures forall p: nat | p in Forks(n, base) :: p >= base
    ensures n.Either? ==> base + PastRel(n) !in Forks(n, base)
    decreases n
  {
    hide Code;
    if n.Either? {
      EitherIs(n);
      ForksFrom(n.y, base + 6 + |Code(n.x)|);
    }
  }

  lemma {:induction false} PatternSparse(code: seq<byte>, starts: set<nat>, bs: seq<Branch>, base: nat)
    requires WfPattern(bs) && WfNode(TreePattern(bs)) && Placed(code, starts, TreePattern(bs), base)
    ensures Sparse(code, Starts(TreePattern(bs), base), Forks(TreePattern(bs), base))
    decreases |bs|
  {
    hide Code, Starts, Placed, Leads, Whole, PushEats, Size, WfBranch, Flowing;
    var n := TreePattern(bs);
    assert WfBranch(bs[0]);
    if |bs| == 1 {
      BranchEats(code, starts, bs[0], base);
      assert Starts(n, base) - {} == Starts(n, base);
    } else {
      EitherPlaced(code, starts, n, base);
      BranchEats(code, starts, bs[0], base + 3);
      PatternSparse(code, starts, bs[1..], base + 6 + |Code(n.x)|);
      TreeFlows(code, starts, n.x, base + 3);
      TreeFlows(code, starts, n.y, base + 6 + |Code(n.x)|);
      EitherSparse(code, starts, n, base);
    }
  }

  lemma EitherSparse(code: seq<byte>, starts: set<nat>, n: Node, base: nat)
    requires n.Either? && WfNode(n) && Placed(code, starts, n, base)
    requires PushEats(code, Starts(n.x, base + 3)) && Flowing(code, starts, n.x, base + 3)
    requires Flowing(code, starts, n.y, base + 6 + |Code(n.x)|)
    requires Sparse(code, Starts(n.y, base + 6 + |Code(n.x)|), Forks(n.y, base + 6 + |Code(n.x)|))
    ensures Sparse(code, Starts(n, base), Forks(n, base))
  {
    hide Code, Starts, Leads, Stands, Fits, NumAt, PastRel, Coherent, Forks, Sparse, PushEats, Lone, Between, BackJump,
         NoCount, Lands;
    EitherStarts(n, base);
    EitherIs(n);
    EitherJumps(code, starts, n, base);
    EitherSites(code, n, base);
    var h := base + 3 + |Code(n.x)|;
    var (a, b, forks) := (Starts(n.x, base + 3), Starts(n.y, h + 3), Forks(n.y, h + 3));
    ForksAre(n, base);
    ForksAre(n.y, h + 3);
    ForksFrom(n.y, h + 3);
    PastIs(n.y);
    EitherSpread(code, a, b, forks, base, h, h + 3 + PastRel(n.y), base + |Code(n)|, starts);
  }

  lemma ForksAre(n: Node, base: nat)
    requires WfNode(n)
    ensures Forks(n, base) == if n.Either? then {base} + Forks(n.y, base + 6 + |Code(n.x)|) else {}
  {
  }

  lemma EitherSpread(code: seq<byte>, a: set<nat>, b: set<nat>, forks: set<nat>, base: nat, h: nat, to: nat, e: nat,
                     starts: set<nat>)
    requires Within(code, starts, a, base + 3, h) && Within(code, starts, b, h + 3, e) && base + 3 <= h
    requires Site(code, base, ON_FAILURE_JUMP, h - base) && Only(code, base, base + 3, h + 3)
    requires h < |code| && code[h] == JUMP_PAST_ALT && Only(code, h, to, to) && h + 3 <= to && to !in forks
    requires (forall p: nat | p in forks :: p >= h + 3) && PushEats(code, a) && Sparse(code, b, forks)
    ensures Sparse(code, {base} + a + {h} + b, {base} + forks)
  {
    hide Leads, NumAt, BackJump;
    var (own, all) := ({base} + a + {h} + b, {base} + forks);
    forall p: nat, r: nat | p in own && Leads(code, p, r) && r in all
      ensures p in all && Pushing(code[p]) && r != p + Size(code, p)
    {
      if p == base {
        assert Size(code, p) == 3;
      } else if p in b {
        assert r > p;
      }
    }
  }

  lemma SparseBounds(code: seq<byte>, starts: set<nat>, forks: set<nat>)
    requires Sparse(code, starts, forks)
    ensures NeedBounded(code, starts, Need(code, forks)) && Need(code, forks)(0) <= 2
  {
    hide Leads, NumAt, Whole, BoundAt;
    forall p: nat, r: nat | p in starts && Leads(code, p, r) && r < |code|
      ensures Whole(code, p) && BoundAt(code, p, r, Need(code, forks))
    {
      LeadsEatsNot(code, p, r);
      NeedFalls(code, starts, forks, p, r);
    }
  }

  lemma NeedFalls(code: seq<byte>, starts: set<nat>, forks: set<nat>, p: nat, r: nat)
    requires Sparse(code, starts, forks) && p in starts && Leads(code, p, r) && r < |code| && Whole(code, p)
    requires !Eating(code[p])
    ensures BoundAt(code, p, r, Need(code, forks))
  {
    hide Leads, NumAt, Whole, Size;
  }

  lemma LeadsEatsNot(code: seq<byte>, p: nat, r: nat)
    requires Leads(code, p, r)
    ensures Whole(code, p) && !Eating(code[p])
  {
  }

  /** Without groups the exploration remembers two addresses at most, so it never fails. */
  lemma PlainNeedsTwo(bs: seq<Branch>) returns (need: nat -> nat)
    requires WfPattern(bs) && JumpsFit(bs) && (|bs| == 1 || bs[|bs| - 1] != [])
    ensures WfNode(TreePattern(bs)) && Code(TreePattern(bs)) == PatternCode(bs)
    ensures Structured(PatternCode(bs), Starts(TreePattern(bs), 0))
    ensures NeedBounded(PatternCode(bs), Starts(TreePattern(bs), 0), need) && need(0) <= 2
  {
    hide Code, Starts, Fits, PatternCode, Placed, Sparse, NeedBounded, Need;
    var n := TreePattern(bs);
    PatternTree(bs);
    CompiledFlows(n);
    TopPlaced(n);
    PatternSparse(Code(n), Starts(n, 0), bs, 0);
    SparseBounds(Code(n), Starts(n, 0), Forks(n, 0));
    need := Need(Code(n), Forks(n, 0));
  }
}
