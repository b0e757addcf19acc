/** What a fastmap makes the search skip cannot match. */
module RegexMiss {
  import opened Bytes
  import opened RegexAst
  import opened RegexCode
  import opened RegexTrace
  import opened RegexGreedy
  import opened RegexLayout
  import opened RegexTheorems
  import opened RegexTree
  import opened RegexSource
  import opened RegexFirst
  import opened RegexPlain

  // No match of n can start at d.
  ghost predicate MissAt(n: Node, t: Text, d: nat) { !NullOf(n) && d <= |t| && (d < |t| ==> t[d] !in FirstOf(n)) }

  lemma UnitFirst(atom: Atom, t: Text, d: nat)
    ensures Unit(atom, t, d) ==> t[d] in PieceFirst(AtomPiece(atom))
  {
  }

  lemma OccursFirst(s: seq<byte>, t: Text, d: nat)
    ensures s != [] && Occurs(s, t, d) ==> d < |t| && t[d] == s[0]
  {
    if s != [] && Occurs(s, t, d) { assert t[d..d + |s|][0] == t[d]; }
  }

  lemma PieceIs(p: Piece)
    ensures NullOf(TreePiece(p)) <==> p.Anchor? || (p.Rep? && (Never(p.q) || Optional(p.q)))
    ensures FirstOf(TreePiece(p)) ==
            if !p.Rep? then PieceFirst(p) else if Never(p.q) then {} else PieceFirst(AtomPiece(p.atom))
  {
  }

  // The first piece of what is left cannot start at d, and neither can the rest if the piece can be empty.
  lemma SuffixMisses(b: Branch, k: nat, t: Text, d: nat)
    requires k < |b| && MissAt(TreeBranch(b[k..]), t, d)
    ensures d < |t| ==> t[d] !in FirstOf(TreePiece(b[k]))
    ensures NullOf(TreePiece(b[k])) ==> MissAt(TreeBranch(b[k + 1..]), t, d)
  {
    assert b[k..][1..] == b[k + 1..] && b[k..][0] == b[k];
    assert TreeBranch(b[k..]) == Cat(TreePiece(b[k]), TreeBranch(b[k + 1..]));
    hide TreePiece, TreeBranch;
  }

  lemma RepMisses(items: seq<Item>, t: Text, i: nat, d: nat, depth: nat)
    requires Linked(items) && i < |items| && items[i].Term? && items[i].piece.Rep? && depth < MAX_POINTS && d <= |t|
    requires Never(items[i].piece.q) || !Unit(items[i].piece.atom, t, d)
    requires Never(items[i].piece.q) || Optional(items[i].piece.q) ==> Ev(items, t, i + 1, d, depth) == []
    ensures Ev(items, t, i, d, depth) == []
  {
    var (atom, q) := (items[i].piece.atom, items[i].piece.q);
    if !Never(q) {
      if Optional(q) { assert Resume(items, t, i + 1, d, depth) == []; }
      match q
      case Star => assert Loop(items, t, i, d, depth) == [];
      case Interval(lo, _) => assert Count(items, t, i, 0, d, depth) == [];
      case _ =>
    }
  }

  lemma {:induction false} EvMisses(items: seq<Item>, t: Text, s: nat, b: Branch, k: nat, d: nat, depth: nat)
    requires Region(items, t, s, b) && k <= |b| && depth < MAX_POINTS && MissAt(TreeBranch(b[k..]), t, d)
    ensures Ev(items, t, s + k, d, depth) == []
    decreases |b| - k
  {
    if k < |b| {
      SuffixMisses(b, k, t, d);
      PieceIs(b[k]);
      match b[k]
      case Exact(str) => OccursFirst(str, t, d);
      case One(atom) => UnitFirst(atom, t, d);
      case Anchor(spot) => EvMisses(items, t, s, b, k + 1, d, depth);
      case Rep(atom, q) =>
        UnitFirst(atom, t, d);
        if Never(q) || Optional(q) { EvMisses(items, t, s, b, k + 1, d, depth); }
        RepMisses(items, t, s + k, d, depth);
    }
  }

  lemma AltMisses(bs: seq<Branch>, items: seq<Item>, t: Text, a: nat, pos: nat, depth: nat)
    requires Laid(bs, items) && a < |bs| && depth < MAX_POINTS && MissAt(TreeBranch(bs[a]), t, pos)
    ensures PiecesOf(bs, a) <= |items| && Ev(items, t, PiecesOf(bs, a), pos, depth) == []
  {
    AltEnds(bs, items, t, a);
    assert AltAt(bs, items, a);
    assert Region(items, t, PiecesOf(bs, a), bs[a]);
    assert bs[a][0..] == bs[a];
    EvMisses(items, t, PiecesOf(bs, a), bs[a], 0, pos, depth);
  }

  lemma {:induction false} AllMisses(bs: seq<Branch>, items: seq<Item>, t: Text, a: nat, pos: nat)
    requires Laid(bs, items) && a < |bs| && MissAt(TreePattern(bs[a..]), t, pos)
    ensures Begin(bs, a) <= |items| && Ev(items, t, Begin(bs, a), pos, 0) == []
    decreases |bs| - a
  {
    assert AltAt(bs, items, a);
    assert bs[a..][0] == bs[a] && bs[a..][1..] == bs[a + 1..];
    if a == |bs| - 1 {
      AltMisses(bs, items, t, a, pos, 0);
    } else {
      assert AltAt(bs, items, a + 1);
      AltMisses(bs, items, t, a, pos, 1);
      AllMisses(bs, items, t, a + 1, pos);
    }
  }

  /** Where no match can start, matching fails - it does not even run out of failure stack. */
  lemma MissIsFailure(bs: seq<Branch>, items: seq<Item>, t: Text, pos: nat)
    requires Laid(bs, items) && MissAt(TreePattern(bs), t, pos)
    ensures MatchResult(items, t, pos) == -1
  {
    assert bs[0..] == bs;
    AllMisses(bs, items, t, 0, pos);
  }
}
