/** Patterns with groups as trees, and the bytes regex_compile lays out for them. */
module RegexTree {
  import opened Bytes
  import opened RegexAst
  import opened RegexCode

  const START_MEMORY: byte := 5
  const STOP_MEMORY: byte := 6
  const PUSH_DUMMY_FAILURE: byte := 19

  // A quantifier applies to whatever code stands behind the compiler's laststart: a single character, a
  // group, something quantified before, or one of these with anchors behind it.
  datatype Node =
    | Empty
    | Leaf(piece: Piece)
    | Cat(x: Node, y: Node)
    | Either(x: Node, y: Node)
    | Group(reg: byte, inner: byte, body: Node)
    | Many(body: Node, q: Quant)

  // Something is laid out.
  predicate Solid(n: Node) {
    match n
    case Empty => false
    case Cat(x, y) => Solid(x) || Solid(y)
    case _ => true
  }

  // Alternatives stand directly in the pattern or in a group, and are nested to the right.
  ghost predicate WfNode(n: Node) {
    match n
    case Empty => true
    case Leaf(p) => !p.Rep? && WfPiece(p)
    case Cat(x, y) => WfNode(x) && WfNode(y) && !x.Either? && !y.Either?
    case Either(x, y) => WfNode(x) && WfNode(y) && !x.Either?
    case Group(_, _, body) => WfNode(body)
    case Many(body, q) =>
      WfNode(body) && !body.Either? && Solid(body) && (q.Interval? ==> q.lo <= q.hi <= RE_DUP_MAX)
  }

  function Dummy(body: Node): seq<byte> { if body.Either? then [PUSH_DUMMY_FAILURE] else [] }

  ghost function Code(n: Node): seq<byte>
    requires WfNode(n)
    decreases n, 0
  {
    match n
    case Empty => []
    case Leaf(p) => PieceCode(p)
    case Cat(x, y) => Code(x) + Code(y)
    case Either(x, y) =>
      Op1(ON_FAILURE_JUMP, |Code(x)| + 3) + Code(x) + Op1(JUMP_PAST_ALT, PastRel(y)) + Code(y)
    case Group(reg, inner, body) =>
      [START_MEMORY, reg, inner] + Code(body) + Dummy(body) + [STOP_MEMORY, reg, inner]
    case Many(body, q) => RepCode(Code(body), q)
  }

  // A jump_past_alt leads to the next one, the last of them behind the last alternative.
  ghost function PastRel(y: Node): nat
    requires WfNode(y)
    decreases y, 1
  {
    if y.Either? then |Code(y.x)| + 3 else |Code(y)|
  }

  // What a quantifier adds to the code it applies to.
  function Extra(q: Quant): nat {
    match q
    case Star => 6
    case Plus => 9
    case Quest => 3
    case Interval(_, hi) => if hi == 0 then 3 else if hi == 1 then 10 else 20
  }

  lemma RepLength(a: seq<byte>, q: Quant)
    ensures |RepCode(a, q)| == |a| + Extra(q)
  {
    hide Lo, Hi;
  }

  // Every relative address fits its two bytes.
  ghost predicate Fits(n: Node)
    requires WfNode(n)
  {
    match n
    case Empty => true
    case Leaf(_) => true
    case Cat(x, y) => Fits(x) && Fits(y)
    case Either(x, y) => Fits(x) && Fits(y) && |Code(x)| + 3 <= MAX_NUMBER && PastRel(y) <= MAX_NUMBER
    case Group(_, _, body) => Fits(body)
    case Many(body, q) => Fits(body) && |Code(body)| + Extra(q) <= MAX_NUMBER
  }

  lemma {:induction false} SolidCode(n: Node)
    requires WfNode(n)
    ensures Solid(n) <==> |Code(n)| > 0
  {
    match n
    case Cat(x, y) =>
      SolidCode(x);
      SolidCode(y);
    case Many(body, q) => RepLength(Code(body), q);
    case _ =>
  }

  // A tree whose code is short enough fits.
  lemma {:induction false} ShortCodeFits(n: Node)
    requires WfNode(n) && |Code(n)| <= MAX_NUMBER
    ensures Fits(n)
  {
    hide RepCode, Lo, Hi, PieceCode;
    match n
    case Cat(x, y) =>
      ShortCodeFits(x);
      ShortCodeFits(y);
    case Either(x, y) =>
      ShortCodeFits(x);
      ShortCodeFits(y);
    case Group(_, _, body) => ShortCodeFits(body);
    case Many(body, q) =>
      RepLength(Code(body), q);
      ShortCodeFits(body);
    case _ =>
  }
}
