/**
 The code of every tree has jumps the exploration can follow: however groups, alternatives and
 quantifiers are nested, each jump satisfies Local, loops are entered from the front, and a succeed_n is
 reached forward only from the set_number_at that gives it its count.
 */
module RegexNested {
  import opened Bytes
  import opened RegexAst
  import opened RegexCode
  import opened RegexTree
  import opened RegexFlow

  // ---------- Where instructions start ----------

  function BodyOff(q: Quant): nat {
    match q
    case Star => 3
    case Plus => 6
    case Quest => 3
    case Interval(_, hi) => if hi == 0 then 3 else if hi == 1 then 10 else 15
  }

  // Instructions before the body, relative to the beginning.
  function Heads(q: Quant): set<nat> {
    match q
    case Star => {0}
    case Plus => {0, 3}
    case Quest => {0}
    case Interval(_, hi) => if hi == 0 then {0} else if hi == 1 then {0, 5} else {0, 5, 10}
  }

  // The quantifier has a jump after the body.
  predicate Tailed(q: Quant) { q.Star? || q.Plus? || (q.Interval? && q.hi > 1) }

  function Shifted(s: set<nat>, base: nat): set<nat> { set k | k in s :: base + k }

  ghost function Starts(n: Node, base: nat): set<nat>
    requires WfNode(n)
  {
    match n
    case Empty => {}
    case Leaf(_) => {base}
    case Cat(x, y) => Starts(x, base) + Starts(y, base + |Code(x)|)
    case Either(x, y) =>
      {base} + Starts(x, base + 3) + {base + 3 + |Code(x)|} + Starts(y, base + 6 + |Code(x)|)
    case Group(_, _, body) =>
      var e := base + 3 + |Code(body)|;
      {base} + Starts(body, base + 3) + (if body.Either? then {e, e + 1} else {e})
    case Many(body, q) =>
      var k := base + BodyOff(q);
      Shifted(Heads(q), base) + Starts(body, k) + (if Tailed(q) then {k + |Code(body)|} else {})
  }

  // ---------- One instruction ----------

  // A succeed_n gets its count from the set_number_at before it.
  ghost predicate CountedAt(code: seq<byte>, v: nat, r: nat) {
    r < |code| && code[r] == SUCCEED_N ==>
      && v + 5 == r && r + 4 < |code| && code[v] == SET_NUMBER_AT
      && NumAt(code, v + 1) == 5 && NumAt(code, v + 3) == NumAt(code, r + 3)
  }

  predicate NoCount(code: seq<byte>, a: nat) { a < |code| ==> code[a] != SUCCEED_N }

  // The instruction at p, with its relative address.
  predicate Site(code: seq<byte>, p: nat, op: byte, rel: int) {
    p + 2 < |code| && code[p] == op && NumAt(code, p + 1) == rel
  }

  ghost predicate Only(code: seq<byte>, p: nat, a: nat, b: nat) {
    forall r: nat | Leads(code, p, r) :: r == a || r == b
  }

  lemma PushSite(code: seq<byte>, starts: set<nat>, p: nat, rel: nat)
    requires Site(code, p, ON_FAILURE_JUMP, rel) && Lands(code, starts, p + 3) && Lands(code, starts, p + 3 + rel)
    ensures Local(code, starts, p) && Only(code, p, p + 3, p + 3 + rel) && !BackJump(code, starts, p)
  {
  }

  lemma JumpSite(code: seq<byte>, starts: set<nat>, p: nat, op: byte, rel: nat)
    requires op in {JUMP, JUMP_PAST_ALT, DUMMY_FAILURE_JUMP} && Site(code, p, op, rel)
    requires Lands(code, starts, p + 3) && Lands(code, starts, p + 3 + rel)
    requires rel > 0 || (p + 3 < |code| && !Pushing(code[p + 3]))
    ensures Local(code, starts, p) && Only(code, p, p + 3 + rel, p + 3 + rel) && !BackJump(code, starts, p)
  {
  }

  // The jump at the end of a loop whose head is at q.
  lemma BackSite(code: seq<byte>, starts: set<nat>, p: nat, rel: int, q: nat, ahead: nat)
    requires Site(code, p, MAYBE_POP_JUMP, rel) && q == p + 3 + rel && q < p && q in starts && p in starts
    requires Site(code, q, ON_FAILURE_JUMP, ahead) && q + 3 + ahead == p + 3 && Lands(code, starts, p + 3)
    ensures Local(code, starts, p) && Only(code, p, p + 3, p + 3)
    ensures BackJump(code, starts, p) && Target(code, p) == q && Whole(code, q) && Size(code, q) == 3
  {
    hide NumAt;
    assert Redirects(code, p) && Target(code, Target(code, p)) == p + 3;
  }

  lemma CountBackSite(code: seq<byte>, starts: set<nat>, p: nat, rel: int, q: nat, ahead: nat)
    requires Site(code, p, JUMP_N, rel) && p + 5 <= |code| && q == p + 3 + rel && q + 5 <= p && q in starts
    requires p in starts
    requires Site(code, q, SUCCEED_N, ahead) && q + 3 + ahead == p + 5 && Lands(code, starts, p + 5)
    ensures Local(code, starts, p) && Only(code, p, p + 5, p + 5)
    ensures BackJump(code, starts, p) && Target(code, p) == q && Whole(code, q) && Size(code, q) == 5
  {
    hide NumAt;
    assert Redirects(code, p) && Target(code, Target(code, p)) == p + 5;
  }

  lemma SucceedSite(code: seq<byte>, starts: set<nat>, p: nat, rel: int)
    requires Site(code, p, SUCCEED_N, rel) && rel >= 2 && p + 5 <= |code|
    requires Lands(code, starts, p + 5) && Lands(code, starts, p + 3 + rel)
    ensures Local(code, starts, p) && Only(code, p, p + 5, p + 3 + rel) && !BackJump(code, starts, p)
  {
  }

  lemma PassSite(code: seq<byte>, starts: set<nat>, p: nat)
    requires Whole(code, p) && !Eating(code[p]) && !Pushing(code[p]) && !Jumping(code[p])
    requires Lands(code, starts, p + Size(code, p))
    ensures Local(code, starts, p) && Only(code, p, p + Size(code, p), p + Size(code, p)) && !BackJump(code, starts, p)
  {
  }

  lemma SetSite(code: seq<byte>, starts: set<nat>, p: nat)
    requires p + 5 <= |code| && code[p] == SET_NUMBER_AT && Lands(code, starts, p + 5)
    ensures Local(code, starts, p) && Only(code, p, p + 5, p + 5) && !BackJump(code, starts, p)
  {
  }

  lemma EatSite(code: seq<byte>, starts: set<nat>, p: nat)
    requires Whole(code, p) && Eating(code[p]) && Lands(code, starts, p + Size(code, p))
    ensures Local(code, starts, p) && (forall r: nat :: !Leads(code, p, r)) && !BackJump(code, starts, p)
  {
  }

  // ---------- Parts of the code ----------

  // Instructions that are right among themselves.
  ghost predicate Coherent(code: seq<byte>, starts: set<nat>, own: set<nat>) {
    && own <= starts
    && (forall p: nat | p in own :: Local(code, starts, p))
    && Cross(code, starts, own, own)
    && (forall v: nat, r: nat | v in own && Leads(code, v, r) :: CountedAt(code, v, r))
  }

  // The loops of `own` are entered from `from` only at the front.
  ghost predicate Cross(code: seq<byte>, starts: set<nat>, own: set<nat>, from: set<nat>) {
    forall j: nat, v: nat, r: nat | j in own && v in from && BackJump(code, starts, j) && Leads(code, v, r) ::
      EnteredAt(code, starts, j, v, r)
  }

  // All of it lies from lo to hi, and leads no further.
  ghost predicate Within(code: seq<byte>, starts: set<nat>, own: set<nat>, lo: nat, hi: nat) {
    && (forall p: nat | p in own :: lo <= p < hi)
    && (forall p: nat, r: nat | p in own && Leads(code, p, r) :: p < r <= hi)
    && (forall j: nat | j in own && BackJump(code, starts, j) :: lo <= Target(code, j))
  }

  // From outside, nothing between lo and hi is reached.
  ghost predicate Avoids(code: seq<byte>, from: set<nat>, lo: nat, hi: nat) {
    forall v: nat, r: nat | v in from && Leads(code, v, r) :: r <= lo || r >= hi
  }

  // No loop goes across a.
  ghost predicate Between(code: seq<byte>, starts: set<nat>, own: set<nat>, a: nat) {
    forall j: nat | j in own && BackJump(code, starts, j) :: !InLoop(code, starts, j, a)
  }

  lemma CrossRange(code: seq<byte>, starts: set<nat>, own: set<nat>, lo: nat, hi: nat, from: set<nat>)
    requires Within(code, starts, own, lo, hi) && Avoids(code, from, lo, hi)
    ensures Cross(code, starts, own, from)
  {
    hide Leads, Loops;
    forall j: nat, v: nat, r: nat | j in own && v in from && BackJump(code, starts, j) && Leads(code, v, r)
      ensures EnteredAt(code, starts, j, v, r)
    {
      assert j < hi && lo <= Target(code, j);
    }
  }

  lemma CrossBoth(code: seq<byte>, starts: set<nat>, x: set<nat>, y: set<nat>, from: set<nat>)
    requires Cross(code, starts, x, from) && Cross(code, starts, y, from)
    ensures Cross(code, starts, x + y, from)
  {
    hide Leads, EnteredAt, BackJump;
  }

  lemma CoherentBoth(code: seq<byte>, starts: set<nat>, x: set<nat>, y: set<nat>)
    requires Coherent(code, starts, x) && Coherent(code, starts, y) && Cross(code, starts, x, y)
    requires Cross(code, starts, y, x)
    ensures Coherent(code, starts, x + y)
  {
    hide Leads, Local, CountedAt, EnteredAt, BackJump;
  }

  // An instruction that is right and jumps forward if at all.
  ghost predicate Lone(code: seq<byte>, starts: set<nat>, p: nat) {
    && p in starts && Local(code, starts, p) && !BackJump(code, starts, p)
    && forall r: nat | Leads(code, p, r) :: CountedAt(code, p, r)
  }

  ghost predicate AllLone(code: seq<byte>, starts: set<nat>, own: set<nat>) {
    forall p: nat | p in own :: Lone(code, starts, p)
  }

  lemma CoherentLone(code: seq<byte>, starts: set<nat>, own: set<nat>, more: set<nat>)
    requires Coherent(code, starts, own) && AllLone(code, starts, more) && Cross(code, starts, own, more)
    ensures Coherent(code, starts, more + own)
  {
    hide Leads, Local, CountedAt, EnteredAt, BackJump;
  }

  // Adding the backward jump at the end of a loop.
  lemma CoherentBack(code: seq<byte>, starts: set<nat>, heads: set<nat>, body: set<nat>, lo: nat, p: nat, size: nat)
    requires Coherent(code, starts, heads + body) && Within(code, starts, body, lo, p) && AllLone(code, starts, heads)
    requires p in starts && Local(code, starts, p) && BackJump(code, starts, p) && Only(code, p, p + size, p + size)
    requires size > 0
    requires lo == Target(code, p) + Size(code, Target(code, p)) && NoCount(code, p + size)
    requires forall v: nat, r: nat | v in heads && Leads(code, v, r) :: r <= Target(code, p) || r == lo || r > p
    ensures Coherent(code, starts, heads + body + {p})
  {
    hide Leads, Local, Loops;
    assert Avoids(code, {p}, lo, p);
    CrossRange(code, starts, body, lo, p, {p});
    var own := heads + body;
    assert Cross(code, starts, own, {p}) by { hide EnteredAt, BackJump; }
    forall v: nat, r: nat | v in own + {p} && Leads(code, v, r) ensures EnteredAt(code, starts, p, v, r) {
    }
  }

  // ---------- Reading the code of a quantifier ----------

  lemma JumpInCode(s: seq<byte>, code: seq<byte>, base: nat, k: nat, op: byte, rel: int)
    requires Stands(s, code, base) && JumpAt(s, k, op, rel) && InNumberRange(rel)
    ensures Site(code, base + k, op, rel)
  {
    hide Lo, Hi;
    NumStands(s, code, base, k + 1, rel);
    NumReads(code, base + k + 1, rel);
  }

  lemma NumberInCode(s: seq<byte>, code: seq<byte>, base: nat, k: nat, number: int)
    requires Stands(s, code, base) && NumIs(s, k, number) && InNumberRange(number)
    ensures base + k + 1 < |code| && NumAt(code, base + k) == number
  {
    hide Lo, Hi;
    NumStands(s, code, base, k, number);
    NumReads(code, base + k, number);
  }

  lemma PartStands(s: seq<byte>, code: seq<byte>, base: nat, k: nat, a: seq<byte>)
    requires Stands(s, code, base) && k + |a| <= |s| && s[k..k + |a|] == a
    ensures Stands(a, code, base + k)
  {
    forall j: nat | j < |a| ensures code[base + k + j] == a[j] {
      assert code[base + (k + j)] == s[k + j] == s[k..k + |a|][j];
    }
  }

  // The instructions before the body of length n that begins at k, and what follows it.
  ghost predicate RepSites(code: seq<byte>, base: nat, n: nat, q: Quant) {
    var k := base + BodyOff(q);
    match q
    case Star => Site(code, base, ON_FAILURE_JUMP, n + 3) && Site(code, k + n, MAYBE_POP_JUMP, -(n + 6))
    case Plus =>
      Site(code, base, DUMMY_FAILURE_JUMP, 3) && Site(code, base + 3, ON_FAILURE_JUMP, n + 3)
      && Site(code, k + n, MAYBE_POP_JUMP, -(n + 6))
    case Quest => Site(code, base, ON_FAILURE_JUMP, n)
    case Interval(lo, hi) =>
      if hi == 0 then Site(code, base, JUMP, n)
      else
        && k - 5 + 4 < |code| && NumAt(code, k - 7) == lo && NumAt(code, k - 2) == lo
        && Site(code, k - 10, SET_NUMBER_AT, 5)
        && if hi == 1 then Site(code, k - 5, SUCCEED_N, n + 2)
           else Site(code, base, SET_NUMBER_AT, n + 15) && Site(code, k - 5, SUCCEED_N, n + 7)
                && Site(code, k + n, JUMP_N, -(n + 8)) && k + n + 5 <= |code|
  }

  lemma RepInCode(code: seq<byte>, base: nat, a: seq<byte>, q: Quant)
    requires Stands(RepCode(a, q), code, base) && |a| + Extra(q) <= MAX_NUMBER
    requires (q.Interval? ==> q.lo <= q.hi <= RE_DUP_MAX)
    ensures RepSites(code, base, |a|, q) && Stands(a, code, base + BodyOff(q))
    ensures base + |a| + Extra(q) <= |code|
  {
    hide Lo, Hi, RepCode, Stands, NumIs;
    var (s, n) := (RepCode(a, q), |a|);
    RepLength(a, q);
    StandsWithin(s, code, base);
    match q {
      case Star =>
        StarStands(s, a);
        JumpInCode(s, code, base, 0, ON_FAILURE_JUMP, n + 3);
        JumpInCode(s, code, base, n + 3, MAYBE_POP_JUMP, -(n + 6));
      case Plus =>
        PlusStands(s, a);
        JumpInCode(s, code, base, 0, DUMMY_FAILURE_JUMP, 3);
        JumpInCode(s, code, base, 3, ON_FAILURE_JUMP, n + 3);
        JumpInCode(s, code, base, n + 6, MAYBE_POP_JUMP, -(n + 6));
      case Quest =>
        QuestIs(a);
        ForwardStands(s, a, ON_FAILURE_JUMP);
        JumpInCode(s, code, base, 0, ON_FAILURE_JUMP, n);
      case Interval(lo, hi) => IntervalInCode(code, base, a, lo, hi);
    }
    PartStands(s, code, base, BodyOff(q), a);
  }

  lemma StandsWithin(s: seq<byte>, code: seq<byte>, base: nat)
    requires Stands(s, code, base)
    ensures base + |s| <= |code|
  {
  }

  lemma QuestIs(a: seq<byte>)
    ensures RepCode(a, Quest) == Op1(ON_FAILURE_JUMP, |a|) + a
    ensures RepCode(a, Interval(0, 0)) == Op1(JUMP, |a|) + a
  {
    hide Lo, Hi;
  }

  lemma IntervalInCode(code: seq<byte>, base: nat, a: seq<byte>, lo: nat, hi: nat)
    requires Stands(RepCode(a, Interval(lo, hi)), code, base) && |a| + Extra(Interval(lo, hi)) <= MAX_NUMBER
    requires lo <= hi <= RE_DUP_MAX
    ensures RepSites(code, base, |a|, Interval(lo, hi))
    ensures var k := BodyOff(Interval(lo, hi)); RepCode(a, Interval(lo, hi))[k..k + |a|] == a
  {
    hide Lo, Hi, RepCode, Stands, NumIs;
    var (s, n) := (RepCode(a, Interval(lo, hi)), |a|);
    RepLength(a, Interval(lo, hi));
    StandsWithin(s, code, base);
    if hi == 0 {
      QuestIs(a);
      ForwardStands(s, a, JUMP);
      JumpInCode(s, code, base, 0, JUMP, n);
    } else if hi == 1 {
      OnceStands(s, a, lo);
      JumpInCode(s, code, base, 0, SET_NUMBER_AT, 5);
      NumberInCode(s, code, base, 3, lo);
      JumpInCode(s, code, base, 5, SUCCEED_N, n + 2);
      NumberInCode(s, code, base, 8, lo);
    } else {
      CountedStands(s, a, lo, hi);
      JumpInCode(s, code, base, 0, SET_NUMBER_AT, n + 15);
      JumpInCode(s, code, base, 5, SET_NUMBER_AT, 5);
      NumberInCode(s, code, base, 8, lo);
      JumpInCode(s, code, base, 10, SUCCEED_N, n + 7);
      NumberInCode(s, code, base, 13, lo);
      JumpInCode(s, code, base, 15 + n, JUMP_N, -(n + 8));
    }
  }

  // ---------- Every tree ----------

  ghost predicate Part(code: seq<byte>, starts: set<nat>, own: set<nat>, lo: nat, hi: nat) {
    Coherent(code, starts, own) && Within(code, starts, own, lo, hi)
  }

  // The last of the alternatives is empty: the jump before it is of length 0.
  predicate Trailing(n: Node) {
    n.Either? && (if n.y.Either? then Trailing(n.y) else !Solid(n.y))
  }

  // A place control can go to on leaving n.
  ghost predicate Exit(code: seq<byte>, starts: set<nat>, n: Node, e: nat) {
    Lands(code, starts, e) && NoCount(code, e) && (Trailing(n) ==> e < |code| && !Pushing(code[e]))
  }

  ghost predicate Placed(code: seq<byte>, starts: set<nat>, n: Node, base: nat)
    requires WfNode(n)
  {
    Fits(n) && Stands(Code(n), code, base) && Starts(n, base) <= starts && Exit(code, starts, n, base + |Code(n)|)
  }

  ghost predicate Flowing(code: seq<byte>, starts: set<nat>, n: Node, base: nat)
    requires WfNode(n)
  {
    && Part(code, starts, Starts(n, base), base, base + |Code(n)|)
    && Lands(code, starts, base) && NoCount(code, base)
    && Between(code, starts, Starts(n, base), base + PastRel(n))
  }

  lemma NotAcrossEnd(code: seq<byte>, starts: set<nat>, own: set<nat>, lo: nat, hi: nat)
    requires Within(code, starts, own, lo, hi)
    ensures Between(code, starts, own, hi)
  {
  }

  lemma StandsBoth(x: seq<byte>, y: seq<byte>, code: seq<byte>, base: nat)
    requires Stands(x + y, code, base)
    ensures Stands(x, code, base) && Stands(y, code, base + |x|)
  {
    var s := x + y;
    forall j: nat | j < |x| ensures code[base + j] == x[j] { assert code[base + j] == s[j]; }
    forall j: nat | j < |y| ensures code[base + |x| + j] == y[j] { assert code[base + (|x| + j)] == s[|x| + j]; }
  }

  lemma LeafFlows(code: seq<byte>, starts: set<nat>, p: Piece, base: nat)
    requires WfNode(Leaf(p)) && Placed(code, starts, Leaf(p), base)
    ensures Flowing(code, starts, Leaf(p), base)
  {
    hide Lo, Hi, InMap, MapLen, MapByte;
    var s := PieceCode(p);
    assert code[base + 0] == s[0];
    assert |s| > 1 ==> code[base + 1] == s[1];
    match p
    case Anchor(_) => PassSite(code, starts, base);
    case _ => EatSite(code, starts, base);
  }

  lemma CatFlows(code: seq<byte>, starts: set<nat>, x: Node, y: Node, base: nat)
    requires WfNode(Cat(x, y)) && Placed(code, starts, Cat(x, y), base)
    requires Flowing(code, starts, y, base + |Code(x)|) && Flowing(code, starts, x, base)
    ensures Flowing(code, starts, Cat(x, y), base)
  {
    hide Leads, Local, EnteredAt, BackJump, CountedAt, Code, Starts, Lands, Stands, Fits;
    var (mid, e) := (base + |Code(x)|, base + |Code(x)| + |Code(y)|);
    var (a, b) := (Starts(x, base), Starts(y, mid));
    assert Starts(Cat(x, y), base) == a + b && |Code(Cat(x, y))| == |Code(x)| + |Code(y)| by { CatIs(x, y, base); }
    CrossRange(code, starts, a, base, mid, b);
    CrossRange(code, starts, b, mid, e, a);
    CoherentBoth(code, starts, a, b);
    NotAcrossEnd(code, starts, a + b, base, e);
  }

  lemma CatIs(x: Node, y: Node, base: nat)
    requires WfNode(Cat(x, y))
    ensures Starts(Cat(x, y), base) == Starts(x, base) + Starts(y, base + |Code(x)|)
    ensures |Code(Cat(x, y))| == |Code(x)| + |Code(y)|
  {
  }

  // One instruction before or after a stretch, leading over it or away from it.
  lemma PartOne(code: seq<byte>, starts: set<nat>, own: set<nat>, lo: nat, hi: nat, p: nat, lo': nat, hi': nat)
    requires Part(code, starts, own, lo, hi) && Lone(code, starts, p) && lo' <= p < hi' && lo' <= lo && hi <= hi'
    requires forall r: nat | Leads(code, p, r) :: p < r <= hi' && (r <= lo || r >= hi)
    ensures Part(code, starts, {p} + own, lo', hi')
  {
    hide Leads, Local, EnteredAt, CountedAt, Loops;
    CrossRange(code, starts, own, lo, hi, {p});
    CoherentLone(code, starts, own, {p});
  }

  // ---------- Groups ----------

  lemma PassLone(code: seq<byte>, starts: set<nat>, p: nat, next: nat)
    requires p in starts && Whole(code, p) && !Eating(code[p]) && !Pushing(code[p]) && !Jumping(code[p])
    requires next == p + Size(code, p) && Lands(code, starts, next) && NoCount(code, next)
    ensures Lone(code, starts, p) && Only(code, p, next, next)
  {
    PassSite(code, starts, p);
  }

  lemma GroupStarts(n: Node, base: nat)
    requires n.Group? && WfNode(n)
    ensures var (body, e) := (n.body, base + 3 + |Code(n.body)|);
            Starts(n, base) == {base} + Starts(body, base + 3) + (if body.Either? then {e, e + 1} else {e})
  {
    hide Code;
  }

  lemma GroupIs(n: Node)
    requires n.Group? && WfNode(n)
    ensures var body := n.body;
            && Code(n) == [START_MEMORY, n.reg, n.inner] + Code(body) + Dummy(body) + [STOP_MEMORY, n.reg, n.inner]
            && |Code(n)| == |Code(body)| + (if body.Either? then 7 else 6)
            && (Fits(n) <==> Fits(body))
  {
    hide RepCode, Op1, PieceCode;
  }

  lemma GroupSites(code: seq<byte>, n: Node, base: nat)
    requires n.Group? && WfNode(n) && Stands(Code(n), code, base)
    ensures var e := base + 3 + |Code(n.body)|;
            && base + |Code(n)| <= |code| && code[base] == START_MEMORY && Stands(Code(n.body), code, base + 3)
            && (if n.body.Either? then code[e] == PUSH_DUMMY_FAILURE && code[e + 1] == STOP_MEMORY
                else code[e] == STOP_MEMORY)
  {
    hide Code, Starts;
    GroupStarts(n, base);
    GroupIs(n);
    var (s, m) := (Code(n), |Code(n.body)|);
    assert code[base + 0] == s[0];
    var (front, back) := ([START_MEMORY, n.reg, n.inner], Dummy(n.body) + [STOP_MEMORY, n.reg, n.inner]);
    assert s[3..3 + m] == Code(n.body) by {
      assert s == front + Code(n.body) + back;
      SliceMiddle(front, Code(n.body), back);
    }
    PartStands(s, code, base, 3, Code(n.body));
    assert code[base + (3 + m)] == s[3 + m];
    if n.body.Either? { assert code[base + (3 + m + 1)] == s[3 + m + 1]; }
  }

  lemma GroupPlaced(code: seq<byte>, starts: set<nat>, n: Node, base: nat)
    requires n.Group? && WfNode(n) && Placed(code, starts, n, base)
    ensures Placed(code, starts, n.body, base + 3)
  {
    hide Code, Starts;
    GroupStarts(n, base);
    GroupIs(n);
    GroupSites(code, n, base);
  }

  lemma GroupFlows(code: seq<byte>, starts: set<nat>, n: Node, base: nat)
    requires n.Group? && WfNode(n) && Placed(code, starts, n, base) && Flowing(code, starts, n.body, base + 3)
    ensures Flowing(code, starts, n, base)
  {
    hide Code, Starts, Stands, Coherent, Leads, Local, BackJump, CountedAt;
    GroupStarts(n, base);
    GroupIs(n);
    GroupSites(code, n, base);
    var (b, e, end) := (Starts(n.body, base + 3), base + 3 + |Code(n.body)|, base + |Code(n)|);
    var stop := if n.body.Either? then e + 1 else e;
    PassLone(code, starts, base, base + 3);
    PassLone(code, starts, stop, end);
    PartOne(code, starts, b, base + 3, e, base, base, e);
    if n.body.Either? {
      PassLone(code, starts, e, e + 1);
      PartOne(code, starts, {base} + b, base, e, e, base, e + 1);
      PartOne(code, starts, {e} + ({base} + b), base, e + 1, e + 1, base, end);
      assert {e + 1} + ({e} + ({base} + b)) == Starts(n, base);
    } else {
      PartOne(code, starts, {base} + b, base, e, e, base, end);
      assert {e} + ({base} + b) == Starts(n, base);
    }
    NotAcrossEnd(code, starts, Starts(n, base), base, end);
  }

  // ---------- Quantifiers ----------

  lemma ManyStarts(n: Node, base: nat)
    requires n.Many? && WfNode(n)
    ensures var (q, k) := (n.q, base + BodyOff(n.q));
            Starts(n, base) == Shifted(Heads(q), base) + Starts(n.body, k)
                               + (if Tailed(q) then {k + |Code(n.body)|} else {})
  {
    hide RepCode, Code, Heads, BodyOff, Shifted;
  }

  lemma ManyIs(n: Node)
    requires n.Many? && WfNode(n)
    ensures var (q, m) := (n.q, |Code(n.body)|);
            && Code(n) == RepCode(Code(n.body), q) && |Code(n)| == m + Extra(q) && m > 0 && !Trailing(n.body)
            && (Fits(n) ==> Fits(n.body) && m + Extra(q) <= MAX_NUMBER) && (q.Interval? ==> q.lo <= q.hi <= RE_DUP_MAX)
  {
    hide RepCode;
    RepLength(Code(n.body), n.q);
    SolidCode(n.body);
  }

  lemma ManyPlaced(code: seq<byte>, starts: set<nat>, n: Node, base: nat)
    requires n.Many? && WfNode(n) && Placed(code, starts, n, base)
    ensures Placed(code, starts, n.body, base + BodyOff(n.q)) && RepSites(code, base, |Code(n.body)|, n.q)
    ensures base + |Code(n.body)| + Extra(n.q) <= |code|
  {
    hide Code, Starts, RepCode, Lo, Hi, NumAt, Stands;
    ManyStarts(n, base);
    ManyIs(n);
    RepInCode(code, base, Code(n.body), n.q);
  }

  // The head of the loop.
  function LoopTop(base: nat, q: Quant): nat {
    if q.Interval? && q.hi > 0 then base + BodyOff(q) - 5 else base + BodyOff(q) - 3
  }

  // What the instructions before the body lead to: one another, the body, or what follows it all.
  ghost predicate HeadsRight(code: seq<byte>, starts: set<nat>, base: nat, m: nat, q: Quant) {
    && AllLone(code, starts, Shifted(Heads(q), base))
    && forall v: nat, r: nat | v in Shifted(Heads(q), base) && Leads(code, v, r) ::
         v < r && (r <= LoopTop(base, q) || r == base + BodyOff(q) || r == base + m + Extra(q))
  }

  lemma HeadsAreRight(code: seq<byte>, starts: set<nat>, base: nat, m: nat, q: Quant)
    requires RepSites(code, base, m, q) && Shifted(Heads(q), base) <= starts && base + m + Extra(q) <= |code| && m > 0
    requires Lands(code, starts, base + m + Extra(q)) && NoCount(code, base + m + Extra(q))
    requires Lands(code, starts, base + BodyOff(q)) && NoCount(code, base + BodyOff(q))
    ensures HeadsRight(code, starts, base, m, q) && Lands(code, starts, base) && NoCount(code, base)
  {
    hide NumAt, Leads, Local, Whole, BackJump;
    var (k, e) := (base + BodyOff(q), base + m + Extra(q));
    assert base + 0 in Shifted(Heads(q), base);
    match q
    case Star => PushSite(code, starts, base, m + 3);
    case Plus =>
      assert base + 3 in Shifted(Heads(q), base);
      JumpSite(code, starts, base, DUMMY_FAILURE_JUMP, 3);
      PushSite(code, starts, base + 3, m + 3);
    case Quest => PushSite(code, starts, base, m);
    case Interval(lo, hi) =>
      if hi == 0 { JumpSite(code, starts, base, JUMP, m); } else { CountHeads(code, starts, base, m, q); }
  }

  lemma CountHeads(code: seq<byte>, starts: set<nat>, base: nat, m: nat, q: Quant)
    requires q.Interval? && q.hi > 0
    requires RepSites(code, base, m, q) && Shifted(Heads(q), base) <= starts && base + m + Extra(q) <= |code| && m > 0
    requires Lands(code, starts, base + m + Extra(q)) && NoCount(code, base + m + Extra(q))
    requires Lands(code, starts, base + BodyOff(q)) && NoCount(code, base + BodyOff(q))
    ensures HeadsRight(code, starts, base, m, q) && NoCount(code, base)
  {
    hide NumAt, Leads, Local, Whole, BackJump;
    var k := base + BodyOff(q);
    assert base + 0 in Shifted(Heads(q), base);
    assert base + 5 in Shifted(Heads(q), base);
    SucceedSite(code, starts, k - 5, if q.hi == 1 then m + 2 else m + 7);
    assert NumAt(code, k - 10 + 1) == 5 && NumAt(code, k - 10 + 3) == NumAt(code, k - 5 + 3);
    SetSite(code, starts, base);
    if q.hi > 1 {
      assert base + 10 in Shifted(Heads(q), base);
      SetSite(code, starts, base + 5);
    }
  }

  lemma TailIsRight(code: seq<byte>, starts: set<nat>, base: nat, m: nat, q: Quant)
    requires RepSites(code, base, m, q) && base + m + Extra(q) <= |code| && m > 0 && Tailed(q)
    requires Shifted(Heads(q), base) <= starts && base + BodyOff(q) + m in starts
    requires Lands(code, starts, base + m + Extra(q))
    ensures var (p, e, h) := (base + BodyOff(q) + m, base + m + Extra(q), LoopTop(base, q));
            && Local(code, starts, p) && BackJump(code, starts, p) && Only(code, p, e, e) && Target(code, p) == h
            && Whole(code, h) && h + Size(code, h) == base + BodyOff(q) && NoCount(code, p) && !Pushing(code[p])
  {
    hide NumAt;
    var (p, h) := (base + BodyOff(q) + m, LoopTop(base, q));
    assert base + (h - base) in Shifted(Heads(q), base);
    if q.Interval? {
      CountBackSite(code, starts, p, -(m + 8), h, m + 7);
    } else {
      BackSite(code, starts, p, -(m + 6), h, m + 3);
    }
  }

  lemma ManyFlows(code: seq<byte>, starts: set<nat>, n: Node, base: nat)
    requires n.Many? && WfNode(n) && Placed(code, starts, n, base)
    requires Flowing(code, starts, n.body, base + BodyOff(n.q))
    ensures Flowing(code, starts, n, base)
  {
    hide Code, Starts, Stands, Leads, Local, BackJump, NumAt, Lands, RepCode, Fits, Coherent, Lone, Cross, Whole,
         RepSites;
    ManyStarts(n, base);
    ManyIs(n);
    ManyPlaced(code, starts, n, base);
    var (q, m, own) := (n.q, |Code(n.body)|, Starts(n, base));
    var (k, e) := (base + BodyOff(q), base + m + Extra(q));
    var (heads, body) := (Shifted(Heads(q), base), Starts(n.body, base + BodyOff(q)));
    HeadsAreRight(code, starts, base, m, q);
    assert Avoids(code, heads, k, k + m);
    CrossRange(code, starts, body, k, k + m, heads);
    CoherentLone(code, starts, body, heads);
    if Tailed(q) {
      TailIsRight(code, starts, base, m, q);
      CoherentBack(code, starts, heads, body, k, k + m, e - k - m);
    } else {
      assert heads + body == own;
    }
    ManyWithin(code, starts, base, m, q, body, own);
    NotAcrossEnd(code, starts, own, base, e);
  }

  lemma ManyWithin(code: seq<byte>, starts: set<nat>, base: nat, m: nat, q: Quant, body: set<nat>, own: set<nat>)
    requires HeadsRight(code, starts, base, m, q)
    requires Within(code, starts, body, base + BodyOff(q), base + BodyOff(q) + m) && m > 0
    requires own == Shifted(Heads(q), base) + body + (if Tailed(q) then {base + BodyOff(q) + m} else {})
    requires var (p, e) := (base + BodyOff(q) + m, base + m + Extra(q));
             Tailed(q) ==> BackJump(code, starts, p) && Target(code, p) == LoopTop(base, q) && Only(code, p, e, e)
    ensures Within(code, starts, own, base, base + m + Extra(q))
  {
    hide Leads, Local, CountedAt, NumAt, Lands, Loops;
  }

  // ---------- Alternatives ----------

  lemma EitherStarts(n: Node, base: nat)
    requires n.Either? && WfNode(n)
    ensures var m := |Code(n.x)|;
            Starts(n, base) == {base} + Starts(n.x, base + 3) + {base + 3 + m} + Starts(n.y, base + 6 + m)
  {
    hide Code, Heads, BodyOff, Shifted;
  }

  lemma EitherIs(n: Node)
    requires n.Either? && WfNode(n)
    ensures var (x, y, m) := (n.x, n.y, |Code(n.x)|);
            && Code(n) == Op1(ON_FAILURE_JUMP, m + 3) + Code(x) + Op1(JUMP_PAST_ALT, PastRel(y)) + Code(y)
            && |Code(n)| == m + 6 + |Code(y)| && PastRel(n) == m + 3
            && (Fits(n) ==> Fits(x) && Fits(y) && m + 3 <= MAX_NUMBER && PastRel(y) <= MAX_NUMBER)
  {
    hide Op1;
    JumpSize(ON_FAILURE_JUMP, |Code(n.x)| + 3);
    JumpSize(JUMP_PAST_ALT, PastRel(n.y));
  }

  lemma Op1In(op: byte, arg: int, code: seq<byte>, base: nat)
    requires Stands(Op1(op, arg), code, base) && InNumberRange(arg)
    ensures Site(code, base, op, arg)
  {
    hide Lo, Hi;
    JumpInCode(Op1(op, arg), code, base, 0, op, arg);
  }

  lemma EitherSites(code: seq<byte>, n: Node, base: nat)
    requires n.Either? && WfNode(n) && Fits(n) && Stands(Code(n), code, base)
    ensures var (m, h) := (|Code(n.x)|, base + 3 + |Code(n.x)|);
            && Site(code, base, ON_FAILURE_JUMP, m + 3) && Stands(Code(n.x), code, base + 3)
            && Site(code, h, JUMP_PAST_ALT, PastRel(n.y)) && Stands(Code(n.y), code, h + 3)
  {
    hide Code, Starts, Op1, Fits, Stands, Lo, Hi, PastRel;
    EitherIs(n);
    var (o, x, h, y) := (Op1(ON_FAILURE_JUMP, |Code(n.x)| + 3), Code(n.x), Op1(JUMP_PAST_ALT, PastRel(n.y)), Code(n.y));
    assert |o| == 3 && |h| == 3 by {
      JumpSize(ON_FAILURE_JUMP, |Code(n.x)| + 3);
      JumpSize(JUMP_PAST_ALT, PastRel(n.y));
    }
    StandsBoth(o + x + h, y, code, base);
    StandsBoth(o + x, h, code, base);
    StandsBoth(o, x, code, base);
    Op1In(ON_FAILURE_JUMP, |Code(n.x)| + 3, code, base);
    Op1In(JUMP_PAST_ALT, PastRel(n.y), code, base + 3 + |x|);
  }

  lemma JumpSize(op: byte, arg: int)
    ensures |Op1(op, arg)| == 3
  {
  }

  // Where the jump_past_alt before y leads.
  lemma PastLands(code: seq<byte>, starts: set<nat>, y: Node, base: nat)
    requires WfNode(y) && Placed(code, starts, y, base)
    requires PastRel(y) == 0 ==> base + |Code(y)| < |code| && !Pushing(code[base + |Code(y)|])
    ensures Lands(code, starts, base + PastRel(y)) && NoCount(code, base + PastRel(y))
    ensures PastRel(y) == 0 ==> base < |code| && !Pushing(code[base])
  {
    hide Code, Starts, Stands, Fits;
    if y.Either? {
      EitherStarts(y, base);
      EitherIs(y);
      EitherSites(code, y, base);
      assert base + 3 + |Code(y.x)| in Starts(y, base);
    }
    PastIs(y);
  }

  lemma PastIs(y: Node)
    requires WfNode(y)
    ensures PastRel(y) == if y.Either? then |Code(y.x)| + 3 else |Code(y)|
  {
  }

  lemma EitherPlaced(code: seq<byte>, starts: set<nat>, n: Node, base: nat)
    requires n.Either? && WfNode(n) && Placed(code, starts, n, base)
    ensures Placed(code, starts, n.x, base + 3) && Placed(code, starts, n.y, base + 6 + |Code(n.x)|)
  {
    hide Code, Starts, Stands, Fits, NumAt;
    EitherStarts(n, base);
    EitherIs(n);
    EitherSites(code, n, base);
    assert base + 3 + |Code(n.x)| in Starts(n, base);
  }

  lemma EitherJumps(code: seq<byte>, starts: set<nat>, n: Node, base: nat)
    requires n.Either? && WfNode(n) && Placed(code, starts, n, base)
    requires Flowing(code, starts, n.x, base + 3) && Flowing(code, starts, n.y, base + 6 + |Code(n.x)|)
    ensures var h := base + 3 + |Code(n.x)|;
            && Lone(code, starts, base) && Only(code, base, base + 3, h + 3)
            && Lone(code, starts, h) && Only(code, h, h + 3 + PastRel(n.y), h + 3 + PastRel(n.y))
            && NoCount(code, base)
  {
    hide Code, Starts, Stands, Fits, NumAt, Part, Between;
    EitherStarts(n, base);
    EitherIs(n);
    EitherSites(code, n, base);
    var h := base + 3 + |Code(n.x)|;
    assert base in Starts(n, base) && h in Starts(n, base);
    EitherPlaced(code, starts, n, base);
    SolidPast(n.y);
    PastLands(code, starts, n.y, h + 3);
    PushSite(code, starts, base, |Code(n.x)| + 3);
    JumpSite(code, starts, h, JUMP_PAST_ALT, PastRel(n.y));
  }

  lemma SolidPast(y: Node)
    requires WfNode(y)
    ensures PastRel(y) == 0 ==> !y.Either? && !Solid(y)
    ensures y.Either? ==> |Code(y)| >= PastRel(y)
  {
    SolidCode(y);
    if y.Either? { EitherIs(y); }
  }

  lemma PastWithin(y: Node)
    requires WfNode(y)
    ensures PastRel(y) <= |Code(y)|
  {
    hide Code;
    PastIs(y);
    if y.Either? { EitherIs(y); }
  }

  lemma EitherFlows(code: seq<byte>, starts: set<nat>, n: Node, base: nat)
    requires n.Either? && WfNode(n) && Placed(code, starts, n, base)
    requires Flowing(code, starts, n.x, base + 3) && Flowing(code, starts, n.y, base + 6 + |Code(n.x)|)
    ensures Flowing(code, starts, n, base)
  {
    hide Code, Starts, Stands, Fits, NumAt, Coherent, Leads, Local, BackJump, CountedAt, Placed, EnteredAt, PastRel;
    EitherStarts(n, base);
    EitherIs(n);
    EitherJumps(code, starts, n, base);
    PastWithin(n.y);
    var (h, e) := (base + 3 + |Code(n.x)|, base + |Code(n)|);
    var (a, b, own) := (Starts(n.x, base + 3), Starts(n.y, h + 3), Starts(n, base));
    // The first alternative and the jump before it.
    PartOne(code, starts, a, base + 3, h, base, base, h + 3);
    // The jump past it and the rest.
    PastCoherent(code, starts, b, h, h + 3 + PastRel(n.y));
    var (front, back) := ({base} + a, {h} + b);
    CrossRange(code, starts, front, base, h + 3, back);
    assert Avoids(code, front, h + 3, e);
    CrossRange(code, starts, b, h + 3, e, front);
    CrossNone(code, starts, h, front);
    CrossBoth(code, starts, {h}, b, front);
    CoherentBoth(code, starts, front, back);
    assert front + back == own;
    EitherWithin(code, starts, a, b, base, h, e);
  }

  lemma CrossNone(code: seq<byte>, starts: set<nat>, p: nat, from: set<nat>)
    requires Lone(code, starts, p)
    ensures Cross(code, starts, {p}, from)
  {
    hide Leads, Local, BackJump, CountedAt, EnteredAt;
  }

  lemma PastCoherent(code: seq<byte>, starts: set<nat>, own: set<nat>, h: nat, to: nat)
    requires Coherent(code, starts, own) && Lone(code, starts, h) && Only(code, h, to, to)
    requires Between(code, starts, own, to)
    ensures Coherent(code, starts, {h} + own)
  {
    hide Leads, Local, Loops, CountedAt;
    assert Cross(code, starts, own, {h});
    CoherentLone(code, starts, own, {h});
  }

  lemma EitherWithin(code: seq<byte>, starts: set<nat>, a: set<nat>, b: set<nat>, base: nat, h: nat, e: nat)
    requires Within(code, starts, {base} + a, base, h + 3) && Within(code, starts, b, h + 3, e) && h + 3 <= e
    requires Within(code, starts, a, base + 3, h) && base + 3 <= h
    requires Lone(code, starts, base) && Lone(code, starts, h) && forall r: nat | Leads(code, h, r) :: h < r <= e
    ensures Within(code, starts, {base} + a + {h} + b, base, e)
    ensures Between(code, starts, {base} + a + {h} + b, h)
  {
    hide Leads, Local, CountedAt, Loops;
    var own := {base} + a + {h} + b;
    forall p: nat | p in own ensures base <= p < e { assert p in {base} + a || p == h || p in b; }
    forall p: nat, r: nat | p in own && Leads(code, p, r)
      ensures p < r <= e
    {
      assert p in {base} + a || p == h || p in b;
    }
    forall j: nat | j in own && BackJump(code, starts, j)
      ensures base <= Target(code, j) && !InLoop(code, starts, j, h)
    {
      assert j in a || j in b;
    }
  }

  // ---------- The theorem ----------

  lemma {:induction false} TreeFlows(code: seq<byte>, starts: set<nat>, n: Node, base: nat)
    requires WfNode(n) && Placed(code, starts, n, base)
    ensures Flowing(code, starts, n, base)
    decreases n
  {
    hide Code, Starts, Stands, Fits, Flowing, Part, Exit;
    match n
    case Empty => EmptyFlows(code, starts, base);
    case Leaf(p) => LeafFlows(code, starts, p, base);
    case Cat(x, y) =>
      CatPlaced(code, starts, x, y, base);
      TreeFlows(code, starts, y, base + |Code(x)|);
      CatFront(code, starts, x, y, base);
      TreeFlows(code, starts, x, base);
      CatFlows(code, starts, x, y, base);
    case Either(x, y) =>
      EitherPlaced(code, starts, n, base);
      TreeFlows(code, starts, x, base + 3);
      TreeFlows(code, starts, y, base + 6 + |Code(x)|);
      EitherFlows(code, starts, n, base);
    case Group(_, _, body) =>
      GroupPlaced(code, starts, n, base);
      TreeFlows(code, starts, body, base + 3);
      GroupFlows(code, starts, n, base);
    case Many(body, q) =>
      ManyPlaced(code, starts, n, base);
      TreeFlows(code, starts, body, base + BodyOff(q));
      ManyFlows(code, starts, n, base);
  }

  lemma EmptyFlows(code: seq<byte>, starts: set<nat>, base: nat)
    requires Placed(code, starts, Empty, base)
    ensures Flowing(code, starts, Empty, base)
  {
  }

  lemma CatPlaced(code: seq<byte>, starts: set<nat>, x: Node, y: Node, base: nat)
    requires WfNode(Cat(x, y)) && Placed(code, starts, Cat(x, y), base)
    ensures Placed(code, starts, y, base + |Code(x)|)
  {
    hide RepCode, Op1, PieceCode, Dummy, Heads, BodyOff, Shifted, Stands, Whole;
    StandsBoth(Code(x), Code(y), code, base);
  }

  lemma CatFront(code: seq<byte>, starts: set<nat>, x: Node, y: Node, base: nat)
    requires WfNode(Cat(x, y)) && Placed(code, starts, Cat(x, y), base) && Flowing(code, starts, y, base + |Code(x)|)
    ensures Placed(code, starts, x, base)
  {
    hide RepCode, Op1, PieceCode, Dummy, Heads, BodyOff, Shifted, Stands, Whole;
    StandsBoth(Code(x), Code(y), code, base);
  }

  // What the exploration and the matcher rely on.
  ghost predicate Structured(code: seq<byte>, starts: set<nat>) {
    && Flows(code, starts) && Entered(code, starts) && NoCount(code, 0)
    && forall v: nat, r: nat | v in starts && Leads(code, v, r) :: CountedAt(code, v, r)
  }

  lemma StructuredParts(code: seq<byte>, starts: set<nat>)
    requires Structured(code, starts)
    ensures Flows(code, starts) && Entered(code, starts)
  {
  }

  /** The code of any pattern that does not end with an empty alternative: wherever groups, alternatives and
      quantifiers are nested in it, every jump is Local, and every loop is entered from the front. */
  lemma CompiledFlows(n: Node)
    requires WfNode(n) && Fits(n) && !Trailing(n)
    ensures Structured(Code(n), Starts(n, 0))
  {
    hide Code, Starts, Fits, Leads, Local, EnteredAt, Loops, CountedAt;
    var (code, starts) := (Code(n), Starts(n, 0));
    TreeFlows(code, starts, n, 0);
  }
}
