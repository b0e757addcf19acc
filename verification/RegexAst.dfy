/**
 The notation that is compiled: top-level alternatives of pieces, where a piece is a run of
 literals, a single-character atom, an anchor, or an atom under one quantifier; and the language
 it denotes, stated without any reference to code or to backtracking.
 */
module RegexAst {
  import opened Bytes

  const NEWLINE: byte := 10

  datatype Atom = Lit(c: byte) | Any | Set(neg: bool, members: set<byte>)

  datatype Quant = Star | Plus | Quest | Interval(lo: nat, hi: nat)
  {
    function Least(): nat {
      match this
      case Star => 0
      case Plus => 1
      case Quest => 0
      case Interval(lo, hi) => lo
    }

    predicate Bounded() { Quest? || Interval? }

    // Meaningful for bounded quantifiers.
    function Most(): nat { if Interval? then hi else 1 }

    // How many repetitions the quantifier allows.
    predicate Allows(n: int) {
      Least() <= n && (Bounded() ==> n <= Most())
    }
  }

  datatype Spot = BegLine | EndLine | BegBuf | EndBuf

  datatype Piece = Exact(s: seq<byte>) | One(atom: Atom) | Anchor(spot: Spot) | Rep(atom: Atom, q: Quant)

  type Branch = seq<Piece>

  type Text = seq<byte>

  const RE_DUP_MAX: nat := 0x7FFF

  // The pieces the compiler can produce: a run of literals is at most what its count byte holds,
  // and interval bounds are ordered and at most RE_DUP_MAX.
  ghost predicate WfPiece(p: Piece) {
    match p
    case Exact(s) => 1 <= |s| <= 255
    case One(atom) => !atom.Lit?
    case Anchor(_) => true
    case Rep(_, q) => q.Interval? ==> q.lo <= q.hi <= RE_DUP_MAX
  }

  ghost predicate WfBranch(b: Branch) { forall k | 0 <= k < |b| :: WfPiece(b[k]) }

  ghost predicate WfPattern(bs: seq<Branch>) {
    |bs| > 0 && forall a | 0 <= a < |bs| :: WfBranch(bs[a])
  }

  // RE_DOT_NEWLINE and RE_DOT_NOT_NULL are both set: `.` is any byte but NUL.
  predicate AtomMatches(atom: Atom, c: byte) {
    match atom
    case Lit(x) => c == x
    case Any => c != 0
    case Set(neg, members) => (c in members) != neg
  }

  predicate Unit(atom: Atom, t: Text, d: nat) { d < |t| && AtomMatches(atom, t[d]) }

  predicate SpotHolds(spot: Spot, t: Text, d: nat)
    requires d <= |t|
  {
    match spot
    case BegLine => d == 0 || t[d - 1] == NEWLINE
    case EndLine => d == |t| || t[d] == NEWLINE
    case BegBuf => d == 0
    case EndBuf => d == |t|
  }

  /** `.` is the bracket that leaves out the NUL byte only. */
  lemma AnyIsBracket(t: Text, d: nat)
    ensures Unit(Any, t, d) <==> Unit(Set(true, {0}), t, d)
  {
  }

  function Backwards(t: Text): (r: Text)
    ensures |r| == |t| && forall k | 0 <= k < |t| :: r[k] == t[|t| - 1 - k]
  {
    if t == [] then [] else Backwards(t[1..]) + [t[0]]
  }

  /** A line begins exactly where, reading backwards, one ends, and so does the text; both line anchors hold at
      the text's own ends, and around every newline. */
  lemma AnchorsMirror(t: Text, d: nat)
    requires d <= |t|
    ensures SpotHolds(BegLine, t, d) <==> SpotHolds(EndLine, Backwards(t), |t| - d)
    ensures SpotHolds(BegBuf, t, d) <==> SpotHolds(EndBuf, Backwards(t), |t| - d)
    ensures SpotHolds(BegBuf, t, d) ==> SpotHolds(BegLine, t, d)
    ensures d > 0 ==> (SpotHolds(BegLine, t, d) <==> t[d - 1] == NEWLINE)
  {
  }

  predicate Occurs(s: seq<byte>, t: Text, d: nat) { d + |s| <= |t| && t[d..d + |s|] == s }

  // Piece p can match exactly t[d..e].
  ghost predicate PieceMatches(p: Piece, t: Text, d: nat, e: nat)
    requires d <= |t|
  {
    match p
    case Exact(s) => e == d + |s| && Occurs(s, t, d)
    case One(atom) => e == d + 1 && Unit(atom, t, d)
    case Anchor(spot) => e == d && SpotHolds(spot, t, d)
    case Rep(atom, q) => d <= e <= |t| && q.Allows(e - d) && forall k: nat | d <= k < e :: Unit(atom, t, k)
  }

  ghost predicate BranchMatches(b: Branch, t: Text, d: nat, e: nat)
    requires d <= |t|
    decreases |b|
  {
    if b == [] then e == d
    else exists m: nat | d <= m <= |t| :: PieceMatches(b[0], t, d, m) && BranchMatches(b[1..], t, m, e)
  }

  // The language of the whole pattern: some alternative matches t[d..e].
  ghost predicate PatternMatches(bs: seq<Branch>, t: Text, d: nat, e: nat)
    requires d <= |t|
  {
    exists a | 0 <= a < |bs| :: BranchMatches(bs[a], t, d, e)
  }

  ghost predicate IsLongest(bs: seq<Branch>, t: Text, d: nat, e: nat)
    requires d <= |t|
  {
    PatternMatches(bs, t, d, e) && forall f: nat | PatternMatches(bs, t, d, f) :: f <= e
  }
}
