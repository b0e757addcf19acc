/**
 The bytes a pattern can start with, and whether it can be empty, read off its tree; and that this is
 exactly what the exploration of its code finds.
 */
module RegexFirst {
  import opened Bytes
  import opened RegexAst
  import opened RegexCode
  import opened RegexTree
  import opened RegexFlow
  import opened RegexNested

  // `.` is taken to match NUL as well.
  ghost function AtomFirst(atom: Atom): set<byte> { set c: byte | atom.Any? || AtomMatches(atom, c) }

  ghost function PieceFirst(p: Piece): set<byte> {
    match p
    case Exact(s) => if s == [] then {} else {s[0]}
    case One(atom) => AtomFirst(atom)
    case _ => {}
  }

  // No repetition is allowed.
  predicate Never(q: Quant) { q.Interval? && q.hi == 0 }

  // No repetition is needed.
  predicate Optional(q: Quant) { q.Star? || q.Quest? || (q.Interval? && q.lo == 0) }

  predicate NullOf(n: Node) {
    match n
    case Empty => true
    case Leaf(p) => p.Anchor?
    case Cat(x, y) => NullOf(x) && NullOf(y)
    case Either(x, y) => NullOf(x) || NullOf(y)
    case Group(_, _, body) => NullOf(body)
    case Many(body, q) => Never(q) || Optional(q) || NullOf(body)
  }

  ghost function FirstOf(n: Node): set<byte> {
    match n
    case Empty => {}
    case Leaf(p) => PieceFirst(p)
    case Cat(x, y) => FirstOf(x) + (if NullOf(x) then FirstOf(y) else {})
    case Either(x, y) => FirstOf(x) + FirstOf(y)
    case Group(_, _, body) => FirstOf(body)
    case Many(body, q) => if Never(q) then {} else FirstOf(body)
  }

  // ---------- Where single instructions lead ----------

  lemma PushLeads(code: seq<byte>, p: nat, rel: nat)
    requires Site(code, p, ON_FAILURE_JUMP, rel)
    ensures Leads(code, p, p + 3) && Leads(code, p, p + 3 + rel)
    ensures Only(code, p, p + 3, p + 3 + rel) && !Eating(code[p])
  {
    hide NumAt;
  }

  lemma JumpLeads(code: seq<byte>, p: nat, op: byte, rel: nat)
    requires Site(code, p, op, rel) && op in {JUMP, JUMP_PAST_ALT, DUMMY_FAILURE_JUMP}
    requires rel > 0 || (p + 3 < |code| && !Pushing(code[p + 3]))
    ensures Leads(code, p, p + 3 + rel) && Only(code, p, p + 3 + rel, p + 3 + rel) && !Eating(code[p])
  {
    hide NumAt;
  }

  lemma SucceedLeads(code: seq<byte>, p: nat, rel: nat)
    requires Site(code, p, SUCCEED_N, rel) && p + 5 <= |code|
    ensures Leads(code, p, p + 5) && !Eating(code[p])
    ensures if NumAt(code, p + 3) == 0
            then Leads(code, p, p + 3 + rel) && Only(code, p, p + 5, p + 3 + rel)
            else Only(code, p, p + 5, p + 5)
  {
    hide NumAt;
  }

  lemma PassLeads(code: seq<byte>, p: nat, next: nat)
    requires Whole(code, p) && !Eating(code[p]) && !Pushing(code[p]) && !Jumping(code[p]) && next == p + Size(code, p)
    ensures Leads(code, p, next) && Only(code, p, next, next)
  {
  }

  // The jump at the end of a loop leads behind the loop.
  lemma TailLeads(code: seq<byte>, base: nat, m: nat, q: Quant)
    requires RepSites(code, base, m, q) && base + m + Extra(q) <= |code| && Tailed(q)
    ensures var (p, e) := (base + BodyOff(q) + m, base + m + Extra(q));
            Leads(code, p, e) && Only(code, p, e, e) && !Eating(code[p])
  {
    hide NumAt;
    var p := base + BodyOff(q) + m;
    assert Redirects(code, p) && Target(code, p) == LoopTop(base, q);
  }

  lemma LeafAccepts(code: seq<byte>, p: Piece, base: nat, c: byte)
    requires WfNode(Leaf(p)) && Stands(PieceCode(p), code, base)
    ensures Accepts(code, base, c) <==> c in PieceFirst(p)
  {
    hide Lo, Hi, InMap, MapLen, MapByte, MapBytes;
    var s := PieceCode(p);
    assert code[base + 0] == s[0];
    assert |s| > 1 ==> code[base + 1] == s[1];
    match p
    case Exact(str) => assert code[base + 2] == s[2];
    case One(Set(neg, members)) =>
      var bits := [MapLen(members)] + MapBytes(members, MapLen(members));
      assert s[1..1 + |bits|] == bits;
      PartStands(s, code, base, 1, bits);
      SliceIs(bits, code, base + 1);
      InMapIsMember(members, c);
    case _ =>
  }

  lemma SliceIs(x: seq<byte>, code: seq<byte>, at: nat)
    requires Stands(x, code, at)
    ensures at + |x| <= |code| && code[at..at + |x|] == x
  {
  }

  // ---------- Everything that can come first is found ----------

  ghost predicate FoundFrom(code: seq<byte>, n: Node, e: nat) {
    (forall c: byte | c in FirstOf(n) :: ExploredFirst(code, c)) && (NullOf(n) ==> Explored(code, e))
  }

  lemma LeafFound(code: seq<byte>, starts: set<nat>, p: Piece, base: nat)
    requires WfNode(Leaf(p)) && Placed(code, starts, Leaf(p), base) && Explored(code, base)
    ensures FoundFrom(code, Leaf(p), base + |Code(Leaf(p))|)
  {
    hide Lo, Hi, InMap, MapLen, MapByte, Explored;
    forall c: byte | c in PieceFirst(p) ensures ExploredFirst(code, c) { LeafAccepts(code, p, base, c); }
    if p.Anchor? {
      assert code[base + 0] == PieceCode(p)[0];
      PassLeads(code, base, base + 1);
      ExploredOn(code, base, base + 1);
    }
  }

  // The heads of a quantifier lead to its body, and past it if it allows no repetition.
  lemma HeadsFound(code: seq<byte>, base: nat, m: nat, q: Quant)
    requires RepSites(code, base, m, q) && base + m + Extra(q) <= |code| && m > 0 && Explored(code, base)
    ensures !Never(q) ==> Explored(code, base + BodyOff(q))
    ensures Never(q) || Optional(q) ==> Explored(code, base + m + Extra(q))
  {
    hide NumAt, Explored, Leads;
    var k := base + BodyOff(q);
    match q
    case Star =>
      PushLeads(code, base, m + 3);
      ExploredOn(code, base, k);
      ExploredOn(code, base, base + m + 6);
    case Plus =>
      JumpLeads(code, base, DUMMY_FAILURE_JUMP, 3);
      ExploredOn(code, base, k);
    case Quest =>
      PushLeads(code, base, m);
      ExploredOn(code, base, k);
      ExploredOn(code, base, base + m + 3);
    case Interval(lo, hi) =>
      if hi == 0 {
        JumpLeads(code, base, JUMP, m);
        ExploredOn(code, base, base + m + 3);
      } else {
        PassLeads(code, base, base + 5);
        ExploredOn(code, base, base + 5);
        if hi > 1 {
          PassLeads(code, base + 5, k - 5);
          ExploredOn(code, base + 5, k - 5);
        }
        SucceedLeads(code, k - 5, if hi == 1 then m + 2 else m + 7);
        ExploredOn(code, k - 5, k);
        if lo == 0 { ExploredOn(code, k - 5, base + m + Extra(q)); }
      }
  }

  lemma ManyFound(code: seq<byte>, starts: set<nat>, n: Node, base: nat)
    requires n.Many? && WfNode(n) && Placed(code, starts, n, base) && Explored(code, base)
    requires !Never(n.q) && Explored(code, base + BodyOff(n.q)) ==>
               FoundFrom(code, n.body, base + BodyOff(n.q) + |Code(n.body)|)
    ensures FoundFrom(code, n, base + |Code(n)|)
  {
    hide Code, Starts, Placed, NumAt, Explored, ExploredFirst, Leads, RepSites;
    ManyIs(n);
    ManyPlaced(code, starts, n, base);
    var (m, q) := (|Code(n.body)|, n.q);
    HeadsFound(code, base, m, q);
    if !Never(q) && !Optional(q) && NullOf(n.body) && Tailed(q) {
      TailLeads(code, base, m, q);
      ExploredOn(code, base + BodyOff(q) + m, base + m + Extra(q));
    }
    assert !Never(q) && !Tailed(q) ==> BodyOff(q) == Extra(q);
  }

  lemma GroupFound(code: seq<byte>, starts: set<nat>, n: Node, base: nat)
    requires n.Group? && WfNode(n) && Placed(code, starts, n, base) && Explored(code, base)
    requires Explored(code, base + 3) ==> FoundFrom(code, n.body, base + 3 + |Code(n.body)|)
    ensures FoundFrom(code, n, base + |Code(n)|)
  {
    hide Code, Starts, Stands, Explored, ExploredFirst, Leads;
    GroupIs(n);
    GroupSites(code, n, base);
    PassLeads(code, base, base + 3);
    ExploredOn(code, base, base + 3);
    var e := base + 3 + |Code(n.body)|;
    if NullOf(n.body) {
      if n.body.Either? {
        PassLeads(code, e, e + 1);
        ExploredOn(code, e, e + 1);
        PassLeads(code, e + 1, e + 4);
        ExploredOn(code, e + 1, e + 4);
      } else {
        PassLeads(code, e, e + 3);
        ExploredOn(code, e, e + 3);
      }
    }
  }

  lemma GroupOpens(code: seq<byte>, starts: set<nat>, n: Node, base: nat)
    requires n.Group? && WfNode(n) && Placed(code, starts, n, base) && Explored(code, base)
    ensures Explored(code, base + 3)
  {
    hide Code, Starts, Stands, Explored, Leads;
    GroupIs(n);
    GroupSites(code, n, base);
    PassLeads(code, base, base + 3);
    ExploredOn(code, base, base + 3);
  }

  // From one jump_past_alt to the next, and to the end of the last alternative.
  lemma {:induction false} PastFound(code: seq<byte>, starts: set<nat>, n: Node, base: nat)
    requires n.Either? && WfNode(n) && Placed(code, starts, n, base) && Explored(code, base + PastRel(n))
    ensures Explored(code, base + |Code(n)|)
    decreases n
  {
    hide Code, Starts, Stands, Explored, Leads, Fits, NumAt;
    EitherIs(n);
    EitherSites(code, n, base);
    EitherPlaced(code, starts, n, base);
    var h := base + 3 + |Code(n.x)|;
    PastIs(n.y);
    SolidPast(n.y);
    JumpLeads(code, h, JUMP_PAST_ALT, PastRel(n.y));
    ExploredOn(code, h, h + 3 + PastRel(n.y));
    if n.y.Either? { PastFound(code, starts, n.y, h + 3); }
  }

  lemma EitherOpens(code: seq<byte>, starts: set<nat>, n: Node, base: nat)
    requires n.Either? && WfNode(n) && Placed(code, starts, n, base) && Explored(code, base)
    ensures Explored(code, base + 3) && Explored(code, base + 6 + |Code(n.x)|)
  {
    hide Code, Starts, Stands, Explored, Leads, Fits, NumAt;
    EitherIs(n);
    EitherSites(code, n, base);
    PushLeads(code, base, |Code(n.x)| + 3);
    ExploredOn(code, base, base + 3);
    ExploredOn(code, base, base + 6 + |Code(n.x)|);
  }

  lemma EitherFound(code: seq<byte>, starts: set<nat>, n: Node, base: nat)
    requires n.Either? && WfNode(n) && Placed(code, starts, n, base)
    requires FoundFrom(code, n.x, base + 3 + |Code(n.x)|) && FoundFrom(code, n.y, base + 6 + |Code(n.x)| + |Code(n.y)|)
    ensures FoundFrom(code, n, base + |Code(n)|)
  {
    hide Code, Starts, Placed, Explored, ExploredFirst;
    EitherIs(n);
    if NullOf(n.x) { PastFound(code, starts, n, base); }
  }

  lemma CatParts(code: seq<byte>, starts: set<nat>, x: Node, y: Node, base: nat)
    requires WfNode(Cat(x, y)) && Placed(code, starts, Cat(x, y), base)
    ensures Placed(code, starts, x, base) && Placed(code, starts, y, base + |Code(x)|)
  {
    hide Placed;
    CatPlaced(code, starts, x, y, base);
    TreeFlows(code, starts, y, base + |Code(x)|);
    CatFront(code, starts, x, y, base);
  }

  lemma {:induction false} FirstFound(code: seq<byte>, starts: set<nat>, n: Node, base: nat)
    requires WfNode(n) && Placed(code, starts, n, base) && Explored(code, base)
    ensures FoundFrom(code, n, base + |Code(n)|)
    decreases n
  {
    hide Code, Starts, Placed, Explored, ExploredFirst;
    match n
    case Empty => NothingFound(code, base);
    case Leaf(p) => LeafFound(code, starts, p, base);
    case Cat(x, y) =>
      CatIs(x, y, base);
      CatParts(code, starts, x, y, base);
      FirstFound(code, starts, x, base);
      if NullOf(x) { FirstFound(code, starts, y, base + |Code(x)|); }
    case Either(x, y) =>
      EitherOpens(code, starts, n, base);
      EitherPlaced(code, starts, n, base);
      FirstFound(code, starts, x, base + 3);
      FirstFound(code, starts, y, base + 6 + |Code(x)|);
      EitherFound(code, starts, n, base);
    case Group(_, _, body) =>
      GroupOpens(code, starts, n, base);
      GroupPlaced(code, starts, n, base);
      FirstFound(code, starts, body, base + 3);
      GroupFound(code, starts, n, base);
    case Many(body, q) =>
      ManyPlaced(code, starts, n, base);
      if !Never(q) && Explored(code, base + BodyOff(q)) { FirstFound(code, starts, body, base + BodyOff(q)); }
      ManyFound(code, starts, n, base);
  }

  lemma NothingFound(code: seq<byte>, base: nat)
    requires Explored(code, base)
    ensures FoundFrom(code, Empty, base + |Code(Empty)|)
  {
  }

  // ---------- Nothing else is found ----------

  // The jumps past the alternatives of n.
  ghost function Chain(n: Node, base: nat): set<nat>
    requires WfNode(n)
  {
    if n.Either? then {base + PastRel(n)} + Chain(n.y, base + 6 + |Code(n.x)|) else {}
  }

  // What the exploration can visit of n.
  ghost function Visit(n: Node, base: nat): set<nat>
    requires WfNode(n)
  {
    match n
    case Empty => {}
    case Leaf(_) => {base}
    case Cat(x, y) => Visit(x, base) + (if NullOf(x) then Visit(y, base + |Code(x)|) else {})
    case Either(x, y) =>
      {base} + Visit(x, base + 3) + Visit(y, base + 6 + |Code(x)|) + (if NullOf(x) then Chain(n, base) else {})
    case Group(_, _, body) =>
      var e := base + 3 + |Code(body)|;
      {base} + Visit(body, base + 3)
      + (if !NullOf(body) then {} else if body.Either? then {e, e + 1} else {e})
    case Many(body, q) =>
      var k := base + BodyOff(q);
      if Never(q) then {base}
      else
        Shifted(FrontHeads(q), base) + Visit(body, k)
        + (if Tailed(q) && NullOf(body) then {k + |Code(body)|} else {})
  }

  // The on_failure_jump of `\+` is not come by.
  function FrontHeads(q: Quant): set<nat> { if q.Plus? then {0} else Heads(q) }

  // Closed under where its instructions lead, from base to the end e.
  ghost predicate Covers(code: seq<byte>, own: set<nat>, base: nat, e: nat, nullable: bool, first: set<byte>) {
    && (base in own || (nullable && base == e)) && (forall v: nat | v in own :: v < |code|)
    && (forall v: nat, r: nat | v in own && Leads(code, v, r) :: r in own || (nullable && r == e))
    && (forall v: nat, c: byte | v in own && Accepts(code, v, c) :: c in first)
  }

  ghost predicate Covered(code: seq<byte>, n: Node, base: nat)
    requires WfNode(n)
  {
    Covers(code, Visit(n, base), base, base + |Code(n)|, NullOf(n), FirstOf(n))
  }

  lemma LeafCovered(code: seq<byte>, p: Piece, base: nat)
    requires WfNode(Leaf(p)) && Stands(PieceCode(p), code, base)
    ensures Covered(code, Leaf(p), base)
  {
    hide Lo, Hi, InMap, MapLen, MapByte, Accepts;
    forall c: byte | Accepts(code, base, c) ensures c in PieceFirst(p) { LeafAccepts(code, p, base, c); }
    assert code[base + 0] == PieceCode(p)[0];
  }

  lemma CoversCat(code: seq<byte>, a: set<nat>, b: set<nat>, base: nat, mid: nat, e: nat, na: bool, nb: bool,
                  fa: set<byte>, fb: set<byte>)
    requires Covers(code, a, base, mid, na, fa) && (na ==> Covers(code, b, mid, e, nb, fb))
    ensures Covers(code, a + (if na then b else {}), base, e, na && nb, fa + (if na then fb else {}))
  {
    hide Leads, Accepts;
  }

  lemma CatVisit(x: Node, y: Node, base: nat)
    requires WfNode(Cat(x, y))
    ensures Visit(Cat(x, y), base) == Visit(x, base) + (if NullOf(x) then Visit(y, base + |Code(x)|) else {})
    ensures FirstOf(Cat(x, y)) == FirstOf(x) + (if NullOf(x) then FirstOf(y) else {})
    ensures NullOf(Cat(x, y)) <==> NullOf(x) && NullOf(y)
  {
    hide Code;
  }

  lemma CatCovered(code: seq<byte>, x: Node, y: Node, base: nat)
    requires WfNode(Cat(x, y)) && Covered(code, x, base) && (NullOf(x) ==> Covered(code, y, base + |Code(x)|))
    ensures Covered(code, Cat(x, y), base)
  {
    hide Leads, Accepts, Code, Visit, Covers, FirstOf, NullOf;
    CatVisit(x, y, base);
    CatIs(x, y, base);
    var (mid, e) := (base + |Code(x)|, base + |Code(Cat(x, y))|);
    CoversCat(code, Visit(x, base), Visit(y, mid), base, mid, e, NullOf(x), NullOf(y), FirstOf(x), FirstOf(y));
  }

  // The heads of a quantifier that are come by lead to one another, to the body, and to the end if no
  // repetition is allowed.
  ghost predicate FrontRight(code: seq<byte>, base: nat, m: nat, q: Quant) {
    forall v: nat | v in Shifted(FrontHeads(q), base) ::
      && v < |code| && !Eating(code[v])
      && forall r: nat | Leads(code, v, r) ::
           r in Shifted(FrontHeads(q), base) || (!Never(q) && r == base + BodyOff(q))
           || ((Never(q) || Optional(q)) && r == base + m + Extra(q))
  }

  lemma FrontIsRight(code: seq<byte>, base: nat, m: nat, q: Quant)
    requires RepSites(code, base, m, q) && base + m + Extra(q) <= |code| && m > 0
    ensures FrontRight(code, base, m, q) && base in Shifted(FrontHeads(q), base)
  {
    hide NumAt, Leads;
    var k := base + BodyOff(q);
    assert base + 0 in Shifted(FrontHeads(q), base);
    match q
    case Star => PushLeads(code, base, m + 3);
    case Plus => JumpLeads(code, base, DUMMY_FAILURE_JUMP, 3);
    case Quest => PushLeads(code, base, m);
    case Interval(lo, hi) =>
      if hi == 0 {
        JumpLeads(code, base, JUMP, m);
      } else {
        assert base + 5 in Shifted(FrontHeads(q), base);
        PassLeads(code, base, base + 5);
        if hi > 1 {
          assert base + 10 in Shifted(FrontHeads(q), base);
          PassLeads(code, base + 5, k - 5);
        }
        SucceedLeads(code, k - 5, if hi == 1 then m + 2 else m + 7);
      }
  }

  lemma CoversMany(code: seq<byte>, front: set<nat>, body: set<nat>, base: nat, m: nat, q: Quant, nb: bool,
                   fb: set<byte>)
    requires front == Shifted(FrontHeads(q), base) && FrontRight(code, base, m, q) && base in front && !Never(q)
    requires Covers(code, body, base + BodyOff(q), base + BodyOff(q) + m, nb, fb)
    requires var (p, e) := (base + BodyOff(q) + m, base + m + Extra(q));
             if Tailed(q) then p < |code| && Only(code, p, e, e) && !Eating(code[p]) else p == e
    requires m > 0
    ensures Covers(code, front + body + (if Tailed(q) && nb then {base + BodyOff(q) + m} else {}),
                   base, base + m + Extra(q), Optional(q) || nb, fb)
  {
    hide Leads, Shifted, Whole;
  }

  lemma ManyVisit(n: Node, base: nat)
    requires n.Many? && WfNode(n)
    ensures var (q, k) := (n.q, base + BodyOff(n.q));
            Visit(n, base) == if Never(q) then {base}
                              else Shifted(FrontHeads(q), base) + Visit(n.body, k)
                                   + (if Tailed(q) && NullOf(n.body) then {k + |Code(n.body)|} else {})
  {
    hide Code, Heads, BodyOff, Shifted, FrontHeads;
  }

  lemma ManyCovered(code: seq<byte>, starts: set<nat>, n: Node, base: nat)
    requires n.Many? && WfNode(n) && Placed(code, starts, n, base)
    requires !Never(n.q) ==> Covered(code, n.body, base + BodyOff(n.q))
    ensures Covered(code, n, base)
  {
    hide Leads, Code, Visit, Placed, RepSites, Shifted, FrontRight, Whole;
    var (q, m) := (n.q, |Code(n.body)|);
    ManyIs(n);
    ManyPlaced(code, starts, n, base);
    ManyVisit(n, base);
    FrontIsRight(code, base, m, q);
    if Never(q) {
      NeverCovers(code, base, m, q);
    } else {
      if Tailed(q) { TailLeads(code, base, m, q); }
      CoversMany(code, Shifted(FrontHeads(q), base), Visit(n.body, base + BodyOff(q)), base, m, q, NullOf(n.body),
                 FirstOf(n.body));
    }
  }

  lemma NeverCovers(code: seq<byte>, base: nat, m: nat, q: Quant)
    requires FrontRight(code, base, m, q) && base in Shifted(FrontHeads(q), base) && Never(q)
    ensures Covers(code, {base}, base, base + m + Extra(q), true, {})
  {
    hide Leads, Whole;
    assert Shifted(FrontHeads(q), base) == {base};
  }

  lemma GroupVisit(n: Node, base: nat)
    requires n.Group? && WfNode(n)
    ensures var (body, e) := (n.body, base + 3 + |Code(n.body)|);
            Visit(n, base) == {base} + Visit(body, base + 3)
                              + (if !NullOf(body) then {} else if body.Either? then {e, e + 1} else {e})
  {
    hide Code;
  }

  // A marker or the like before or after a stretch.
  lemma CoversBefore(code: seq<byte>, own: set<nat>, p: nat, base: nat, e: nat, nullable: bool, first: set<byte>)
    requires Covers(code, own, base, e, nullable, first) && Only(code, p, base, base) && p < |code| && !Eating(code[p])
    ensures Covers(code, {p} + own, p, e, nullable, first)
  {
    hide Leads, Whole;
  }

  lemma CoversAfter(code: seq<byte>, own: set<nat>, base: nat, p: nat, e: nat, nullable: bool, first: set<byte>)
    requires Covers(code, own, base, p, nullable, first) && Only(code, p, e, e) && p < |code| && !Eating(code[p])
    ensures Covers(code, own + (if nullable then {p} else {}), base, e, nullable, first)
  {
    hide Leads, Whole;
  }

  lemma GroupCovered(code: seq<byte>, starts: set<nat>, n: Node, base: nat)
    requires n.Group? && WfNode(n) && Placed(code, starts, n, base) && Covered(code, n.body, base + 3)
    ensures Covered(code, n, base)
  {
    hide Code, Starts, Stands, Leads, Visit, Covers;
    GroupIs(n);
    GroupSites(code, n, base);
    GroupVisit(n, base);
    var (b, e, f, nb) := (Visit(n.body, base + 3), base + 3 + |Code(n.body)|, FirstOf(n.body), NullOf(n.body));
    PassLeads(code, base, base + 3);
    CoversBefore(code, b, base, base + 3, e, nb, f);
    if n.body.Either? {
      PassLeads(code, e, e + 1);
      PassLeads(code, e + 1, e + 4);
      CoversAfter(code, {base} + b, base, e, e + 1, nb, f);
      CoversAfter(code, {base} + b + (if nb then {e} else {}), base, e + 1, e + 4, nb, f);
      assert Visit(n, base) == {base} + b + (if nb then {e} else {}) + (if nb then {e + 1} else {});
    } else {
      PassLeads(code, e, e + 3);
      CoversAfter(code, {base} + b, base, e, e + 3, nb, f);
      assert Visit(n, base) == {base} + b + (if nb then {e} else {});
    }
  }

  // The jumps past alternatives lead to one another and to the end.
  ghost predicate ChainRight(code: seq<byte>, own: set<nat>, e: nat) {
    forall v: nat | v in own ::
      v < |code| && !Eating(code[v]) && forall r: nat | Leads(code, v, r) :: r in own || r == e
  }

  lemma {:induction false} ChainIsRight(code: seq<byte>, starts: set<nat>, n: Node, base: nat)
    requires n.Either? && WfNode(n) && Placed(code, starts, n, base)
    ensures ChainRight(code, Chain(n, base), base + |Code(n)|) && base + PastRel(n) in Chain(n, base)
    decreases n
  {
    hide Code, Starts, Stands, Leads, Fits, NumAt;
    EitherIs(n);
    EitherSites(code, n, base);
    EitherPlaced(code, starts, n, base);
    var h := base + 3 + |Code(n.x)|;
    PastIs(n.y);
    SolidPast(n.y);
    JumpLeads(code, h, JUMP_PAST_ALT, PastRel(n.y));
    if n.y.Either? { ChainIsRight(code, starts, n.y, h + 3); }
  }

  lemma EitherVisit(n: Node, base: nat)
    requires n.Either? && WfNode(n)
    ensures Visit(n, base) == {base} + Visit(n.x, base + 3) + Visit(n.y, base + 6 + |Code(n.x)|)
                              + (if NullOf(n.x) then Chain(n, base) else {})
  {
    hide Code, Chain;
  }

  lemma CoversEither(code: seq<byte>, a: set<nat>, b: set<nat>, chain: set<nat>, base: nat, h: nat, e: nat, na: bool,
                     nb: bool,
                     fa: set<byte>, fb: set<byte>)
    requires Covers(code, a, base + 3, h, na, fa) && Covers(code, b, h + 3, e, nb, fb)
    requires base < |code| && !Eating(code[base]) && Only(code, base, base + 3, h + 3) && ChainRight(code, chain, e)
    requires h in chain
    requires (h + 3 == e ==> nb) && (base + 3 == h ==> na)
    ensures Covers(code, {base} + a + b + (if na then chain else {}), base, e, na || nb, fa + fb)
  {
    hide Leads, Whole;
  }

  lemma EitherCovered(code: seq<byte>, starts: set<nat>, n: Node, base: nat)
    requires n.Either? && WfNode(n) && Placed(code, starts, n, base)
    requires Covered(code, n.x, base + 3) && Covered(code, n.y, base + 6 + |Code(n.x)|)
    ensures Covered(code, n, base)
  {
    hide Code, Starts, Stands, Leads, Visit, Covers, Fits, NumAt, ChainRight, Chain;
    EitherIs(n);
    EitherSites(code, n, base);
    EitherVisit(n, base);
    ChainIsRight(code, starts, n, base);
    PushLeads(code, base, |Code(n.x)| + 3);
    var h := base + 3 + |Code(n.x)|;
    EmptyIsNull(n.x);
    EmptyIsNull(n.y);
    CoversEither(code, Visit(n.x, base + 3), Visit(n.y, h + 3), Chain(n, base), base, h, base + |Code(n)|,
                 NullOf(n.x), NullOf(n.y), FirstOf(n.x), FirstOf(n.y));
  }

  lemma {:induction false} EmptyIsNull(n: Node)
    requires WfNode(n)
    ensures |Code(n)| == 0 ==> NullOf(n)
    decreases n
  {
    SolidCode(n);
    NotSolidIsNull(n);
  }

  lemma {:induction false} NotSolidIsNull(n: Node)
    ensures !Solid(n) ==> NullOf(n)
    decreases n
  {
    if n.Cat? {
      NotSolidIsNull(n.x);
      NotSolidIsNull(n.y);
    }
  }

  lemma {:induction false} TreeCovered(code: seq<byte>, starts: set<nat>, n: Node, base: nat)
    requires WfNode(n) && Placed(code, starts, n, base)
    ensures Covered(code, n, base)
    decreases n
  {
    hide Code, Starts, Placed, Covered;
    match n
    case Empty => EmptyCovered(code, base);
    case Leaf(p) =>
      LeafStands(code, starts, p, base);
      LeafCovered(code, p, base);
    case Cat(x, y) =>
      CatParts(code, starts, x, y, base);
      TreeCovered(code, starts, x, base);
      TreeCovered(code, starts, y, base + |Code(x)|);
      CatCovered(code, x, y, base);
    case Either(x, y) =>
      EitherPlaced(code, starts, n, base);
      TreeCovered(code, starts, x, base + 3);
      TreeCovered(code, starts, y, base + 6 + |Code(x)|);
      EitherCovered(code, starts, n, base);
    case Group(_, _, body) =>
      GroupPlaced(code, starts, n, base);
      TreeCovered(code, starts, body, base + 3);
      GroupCovered(code, starts, n, base);
    case Many(body, q) =>
      ManyPlaced(code, starts, n, base);
      TreeCovered(code, starts, body, base + BodyOff(q));
      ManyCovered(code, starts, n, base);
  }

  lemma EmptyCovered(code: seq<byte>, base: nat)
    ensures Covered(code, Empty, base)
  {
  }

  lemma LeafStands(code: seq<byte>, starts: set<nat>, p: Piece, base: nat)
    requires WfNode(Leaf(p)) && Placed(code, starts, Leaf(p), base)
    ensures Stands(PieceCode(p), code, base)
  {
  }

  lemma {:induction false} OnlyCovered(code: seq<byte>, own: set<nat>, nullable: bool, first: set<byte>, n: nat, r: nat)
    requires Covers(code, own, 0, |code|, nullable, first) && ExploredIn(code, n, r)
    ensures r in own || (nullable && r == |code|)
    decreases n
  {
    hide Leads, Accepts;
    if n > 0 {
      var p: nat :| ExploredIn(code, n - 1, p) && Leads(code, p, r);
      OnlyCovered(code, own, nullable, first, n - 1, p);
      EndOfCode(code, p, r);
    }
  }

  lemma EndOfCode(code: seq<byte>, p: nat, r: nat)
    requires Leads(code, p, r)
    ensures p < |code|
  {
  }

  lemma TopPlaced(n: Node)
    requires WfNode(n) && Fits(n) && !Trailing(n)
    ensures Placed(Code(n), Starts(n, 0), n, 0)
  {
    hide Code, Starts, Fits;
  }

  /** What the exploration of the code of a pattern finds is what the pattern says: it can be gone through
      without consuming anything exactly if the pattern is nullable, and otherwise the bytes found are
      exactly those a match can start with. */
  lemma ExplorationIsFirst(n: Node)
    requires WfNode(n) && Fits(n) && !Trailing(n)
    ensures Explored(Code(n), |Code(n)|) <==> NullOf(n)
    ensures forall c: byte :: ExploredFirst(Code(n), c) <==> c in FirstOf(n)
  {
    hide Code, Starts, Fits, Placed, FoundFrom, Covers, Leads, Accepts, Visit;
    var code := Code(n);
    TopPlaced(n);
    ExploredStart(code);
    FirstFound(code, Starts(n, 0), n, 0);
    TreeCovered(code, Starts(n, 0), n, 0);
    FoundIsFirst(n);
  }

  lemma FoundIsFirst(n: Node)
    requires WfNode(n) && FoundFrom(Code(n), n, |Code(n)|) && Covered(Code(n), n, 0)
    ensures Explored(Code(n), |Code(n)|) <==> NullOf(n)
    ensures forall c: byte :: ExploredFirst(Code(n), c) <==> c in FirstOf(n)
  {
    hide Code, Leads, Accepts, Visit, NullOf, FirstOf, ExploredIn;
    var (code, own) := (Code(n), Visit(n, 0));
    if m: nat :| ExploredIn(code, m, |code|) {
      OnlyCovered(code, own, NullOf(n), FirstOf(n), m, |code|);
    }
    forall c: byte | ExploredFirst(code, c) ensures c in FirstOf(n) {
      var p: nat :| Explored(code, p) && Accepts(code, p, c);
      var m: nat :| ExploredIn(code, m, p);
      OnlyCovered(code, own, NullOf(n), FirstOf(n), m, p);
      AcceptsWithin(code, p, c);
    }
  }

  lemma AcceptsWithin(code: seq<byte>, p: nat, c: byte)
    requires Accepts(code, p, c)
    ensures p < |code|
  {
  }
}
