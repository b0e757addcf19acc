/**
 A pattern as regex_compile reads it, one token per construct, and what it means: single characters,
 each under at most one quantifier, with a run of repetition operators collapsed into one.
 */
module RegexSource {
  import opened Arithmetic
  import opened Bytes
  import opened RegexAst
  import opened RegexBracket

  const CARET: byte := 94

  datatype Op = StarOp | PlusOp | QuestOp

  // Which occurrences of `^` and `$` are anchors is decided before: Anchor tokens.
  datatype Token =
    | Char(c: byte, escaped: bool) | Dot | Bracket(neg: bool, ranges: seq<Range>) | Where(spot: Spot)
    | Repeat(op: Op) | Times(lo: nat, hi: nat) | Bar

  function OpByte(op: Op): byte {
    match op
    case StarOp => 42
    case PlusOp => 43
    case QuestOp => 63
  }

  // Tokens that cut a literal off from the run it would otherwise join.
  predicate Splits(tok: Token) {
    tok.Repeat? || tok.Times? || (tok.Char? && !tok.escaped && tok.c == CARET) || tok == Where(BegLine)
  }

  // ---------- Runs of repetition operators ----------

  function RunLength(toks: seq<Token>): (n: nat)
    ensures n <= |toks|
    ensures forall k | 0 <= k < n :: toks[k].Repeat?
    ensures n < |toks| ==> !toks[n].Repeat?
  {
    if toks != [] && toks[0].Repeat? then 1 + RunLength(toks[1..]) else 0
  }

  function Ops(toks: seq<Token>, n: nat): (ops: seq<Op>)
    requires n <= |toks| && forall k | 0 <= k < n :: toks[k].Repeat?
    ensures |ops| == n
  {
    seq(n, k requires 0 <= k < n => toks[k].op)
  }

  predicate ZeroOk(ops: seq<Op>) { exists k :: 0 <= k < |ops| && !ops[k].PlusOp? }

  predicate ManyOk(ops: seq<Op>) { exists k :: 0 <= k < |ops| && !ops[k].QuestOp? }

  // The one quantifier a run is collapsed into.
  function QuantOf(zeroOk: bool, manyOk: bool): Quant {
    if !manyOk then Quest else if zeroOk then Star else Plus
  }

  function OpQuant(op: Op): Quant {
    match op
    case StarOp => Star
    case PlusOp => Plus
    case QuestOp => Quest
  }

  // The repetition counts an operator puts together out of those in `each`.
  ghost predicate Splitting(each: iset<nat>, op: Op, parts: seq<nat>, n: nat) {
    Sum(parts) == n && OpQuant(op).Allows(|parts|) && forall k | 0 <= k < |parts| :: parts[k] in each
  }

  ghost predicate PutTogether(each: iset<nat>, op: Op, n: nat) {
    exists parts: seq<nat> :: Splitting(each, op, parts, n)
  }

  // What a run means: its last operator repeats what the operators before it allow.
  ghost function Counts(ops: seq<Op>): iset<nat>
    decreases |ops|
  {
    if ops == [] then iset{1}
    else
      var (each, op) := (Counts(ops[..|ops| - 1]), ops[|ops| - 1]);
      iset n: nat | PutTogether(each, op, n)
  }

  function Ones(n: nat): (r: seq<nat>)
    ensures |r| == n && Sum(r) == n && forall k | 0 <= k < n :: r[k] == 1
  {
    if n == 0 then [] else [1] + Ones(n - 1)
  }

  lemma {:induction false} SumAtLeast(parts: seq<nat>)
    requires forall k | 0 <= k < |parts| :: parts[k] >= 1
    ensures Sum(parts) >= |parts|
  {
    if parts != [] { SumAtLeast(parts[1..]); }
  }

  lemma OneMore(init: seq<Op>, op: Op)
    ensures ZeroOk(init + [op]) <==> ZeroOk(init) || !op.PlusOp?
    ensures ManyOk(init + [op]) <==> ManyOk(init) || !op.QuestOp?
  {
    var ops := init + [op];
    if ZeroOk(init) { var k :| 0 <= k < |init| && !init[k].PlusOp?; assert !ops[k].PlusOp?; }
    if !op.PlusOp? { assert !ops[|init|].PlusOp?; }
    if ZeroOk(ops) { var k :| 0 <= k < |ops| && !ops[k].PlusOp?; assert k < |init| ==> !init[k].PlusOp?; }
    if ManyOk(init) { var k :| 0 <= k < |init| && !init[k].QuestOp?; assert !ops[k].QuestOp?; }
    if !op.QuestOp? { assert !ops[|init|].QuestOp?; }
    if ManyOk(ops) { var k :| 0 <= k < |ops| && !ops[k].QuestOp?; assert k < |init| ==> !init[k].QuestOp?; }
  }

  ghost predicate Collapsed(ops: seq<Op>, each: iset<nat>) {
    if ops == [] then each == iset{1}
    else forall n: nat :: n in each <==> QuantOf(ZeroOk(ops), ManyOk(ops)).Allows(n)
  }

  /** Collapsing a run of `*`, `\+` and `\?` keeps its meaning, however the operators are mixed. */
  lemma {:induction false} RunCollapses(ops: seq<Op>)
    ensures Collapsed(ops, Counts(ops))
    decreases |ops|
  {
    if ops != [] {
      var (init, op) := (ops[..|ops| - 1], ops[|ops| - 1]);
      assert ops == init + [op];
      RunCollapses(init);
      OneMore(init, op);
      if init != [] { assert ZeroOk(init) || ManyOk(init) by { assert !init[0].PlusOp? || !init[0].QuestOp?; } }
      forall n: nat
        ensures PutTogether(Counts(init), op, n) <==> QuantOf(ZeroOk(ops), ManyOk(ops)).Allows(n)
      {
        if parts: seq<nat> :| Splitting(Counts(init), op, parts, n) { RunNeeds(init, Counts(init), op, parts); }
        if QuantOf(ZeroOk(ops), ManyOk(ops)).Allows(n) { RunSuffices(init, Counts(init), op, n); }
      }
    }
  }

  // What an operator can put together is within the collapsed quantifier.
  lemma RunNeeds(init: seq<Op>, each: iset<nat>, op: Op, parts: seq<nat>)
    requires Collapsed(init, each) && (init != [] ==> ZeroOk(init) || ManyOk(init))
    requires Splitting(each, op, parts, Sum(parts))
    ensures QuantOf(ZeroOk(init) || !op.PlusOp?, ManyOk(init) || !op.QuestOp?).Allows(Sum(parts))
  {
    if !ZeroOk(init) && op.PlusOp? { SumAtLeast(parts); }
    if op.QuestOp? && |parts| == 1 { assert Sum(parts) == parts[0] + Sum(parts[1..]); }
  }

  // Everything within the collapsed quantifier can be put together.
  lemma RunSuffices(init: seq<Op>, each: iset<nat>, op: Op, n: nat)
    requires Collapsed(init, each) && (init != [] ==> ZeroOk(init) || ManyOk(init))
    requires QuantOf(ZeroOk(init) || !op.PlusOp?, ManyOk(init) || !op.QuestOp?).Allows(n)
    ensures PutTogether(each, op, n)
  {
    if n == 0 && !op.PlusOp? {
      assert Splitting(each, op, [], n);
    } else if n in each {
      assert Sum([n]) == n + Sum([]);
      assert Splitting(each, op, [n], n);
    } else {
      assert Splitting(each, op, Ones(n), n);
    }
  }

  // ---------- The meaning of a pattern ----------

  // What stands before the next token in its alternative: nothing that could be repeated, a single
  // character, or something else.
  datatype Before = Nothing | Single | Other

  // Repetition operators and intervals follow single characters; a repetition operator with nothing
  // to repeat is a literal.
  predicate Readable(toks: seq<Token>, before: Before)
    decreases |toks|
  {
    toks != [] ==>
      match toks[0]
      case Char(_, _) => Readable(toks[1..], Single)
      case Dot => Readable(toks[1..], Single)
      case Bracket(_, _) => Readable(toks[1..], Single)
      case Where(_) => Readable(toks[1..], if before.Nothing? then Nothing else Other)
      case Repeat(_) =>
        if before.Nothing? then Readable(toks[1..], Single)
        else before.Single? && Readable(toks[RunLength(toks)..], Other)
      case Times(_, _) => before.Single? && Readable(toks[1..], Other)
      case Bar => Readable(toks[1..], Nothing)
  }

  function AtomPiece(atom: Atom): Piece { if atom.Lit? then Exact([atom.c]) else One(atom) }

  function AtomOf(p: Piece): Atom {
    match p
    case Exact(s) => if s != [] then Lit(s[0]) else Any
    case One(atom) => atom
    case _ => Any
  }

  function WithLast(b: Branch, p: Piece): Branch { if b == [] then [p] else b[..|b| - 1] + [p] }

  function Quantify(b: Branch, q: Quant): Branch {
    WithLast(b, Rep(if b == [] then Any else AtomOf(b[|b| - 1]), q))
  }

  // The alternatives, the first of them continuing b.
  ghost function Parse(toks: seq<Token>, before: Before, b: Branch): seq<Branch>
    decreases |toks|
  {
    if toks == [] then [b]
    else
      match toks[0]
      case Char(c, _) => Parse(toks[1..], Single, b + [Exact([c])])
      case Dot => Parse(toks[1..], Single, b + [One(Any)])
      case Bracket(neg, ranges) => Parse(toks[1..], Single, b + [One(Set(neg, Members(ranges)))])
      case Where(spot) => Parse(toks[1..], if before.Nothing? then Nothing else Other, b + [Anchor(spot)])
      case Repeat(op) =>
        if before.Nothing? then Parse(toks[1..], Single, b + [Exact([OpByte(op)])])
        else
          var n := RunLength(toks);
          Parse(toks[n..], Other, Quantify(b, QuantOf(ZeroOk(Ops(toks, n)), ManyOk(Ops(toks, n)))))
      case Times(lo, hi) => Parse(toks[1..], Other, Quantify(b, Interval(lo, hi)))
      case Bar => [b] + Parse(toks[1..], Nothing, [])
  }

  ghost function Meaning(toks: seq<Token>): seq<Branch> { Parse(toks, Nothing, []) }

  /** An operator with nothing to repeat means the same as its own character, escaped. */
  lemma LeadingOperator(op: Op, rest: seq<Token>, b: Branch)
    ensures var c := match op case StarOp => '*' case PlusOp => '+' case QuestOp => '?';
            Parse([Repeat(op)] + rest, Nothing, b) == Parse([Char(c as int as byte, true)] + rest, Nothing, b)
  {
    var c := match op case StarOp => '*' case PlusOp => '+' case QuestOp => '?';
    assert OpByte(op) == c as int as byte;
    assert ([Repeat(op)] + rest)[1..] == rest && ([Char(c as int as byte, true)] + rest)[1..] == rest;
  }

  // ---------- Literals grouped into runs mean the same ----------

  function Singles(s: seq<byte>): (b: Branch)
    ensures |b| == |s| && forall k | 0 <= k < |s| :: b[k] == Exact([s[k]])
  {
    seq(|s|, k requires 0 <= k < |s| => Exact([s[k]]))
  }

  function UngroupPiece(p: Piece): Branch { if p.Exact? then Singles(p.s) else [p] }

  function Ungroup(b: Branch): Branch { if b == [] then [] else UngroupPiece(b[0]) + Ungroup(b[1..]) }

  function Ungrouped(bs: seq<Branch>): (r: seq<Branch>)
    ensures |r| == |bs| && forall k | 0 <= k < |bs| :: r[k] == Ungroup(bs[k])
  {
    seq(|bs|, k requires 0 <= k < |bs| => Ungroup(bs[k]))
  }

  lemma {:induction false} UngroupSnoc(b: Branch, p: Piece)
    ensures Ungroup(b + [p]) == Ungroup(b) + UngroupPiece(p)
    decreases |b|
  {
    if b == [] {
      assert ([p])[1..] == [];
      assert b + [p] == [p];
    } else {
      assert (b + [p])[1..] == b[1..] + [p];
      UngroupSnoc(b[1..], p);
      assert UngroupPiece(b[0]) + (Ungroup(b[1..]) + UngroupPiece(p)) == Ungroup(b) + UngroupPiece(p);
    }
  }

  lemma SinglesSnoc(s: seq<byte>, c: byte)
    ensures Singles(s + [c]) == Singles(s) + [Exact([c])]
  {
  }

  lemma LastReplaced(b: Branch, p: Piece)
    requires b != []
    ensures b == b[..|b| - 1] + [b[|b| - 1]] && WithLast(b, p) == b[..|b| - 1] + [p]
  {
  }

  lemma Regroup(x: Branch, y: Branch, z: Branch)
    ensures x + (y + z) == (x + y) + z
  {
  }

  lemma UngroupLonger(b: Branch, s: seq<byte>, c: byte)
    requires b != [] && b[|b| - 1] == Exact(s)
    ensures Ungroup(WithLast(b, Exact(s + [c]))) == Ungroup(b) + [Exact([c])]
  {
    hide Ungroup, Singles, WithLast;
    var init := b[..|b| - 1];
    LastReplaced(b, Exact(s + [c]));
    UngroupSnoc(init, Exact(s));
    UngroupSnoc(init, Exact(s + [c]));
    SinglesSnoc(s, c);
    Regroup(Ungroup(init), Singles(s), [Exact([c])]);
  }

  lemma AtomUngrouped(atom: Atom, q: Quant)
    ensures UngroupPiece(AtomPiece(atom)) == [AtomPiece(atom)] && UngroupPiece(Rep(atom, q)) == [Rep(atom, q)]
    ensures AtomOf(AtomPiece(atom)) == atom
  {
    if atom.Lit? { assert Singles([atom.c]) == [Exact([atom.c])]; }
  }

  lemma QuantifyLast(init: Branch, p: Piece, q: Quant)
    ensures Quantify(init + [p], q) == init + [Rep(AtomOf(p), q)]
  {
    assert (init + [p])[..|init|] == init;
  }

  lemma UngroupQuantify(b: Branch, atom: Atom, q: Quant)
    requires b != [] && b[|b| - 1] == AtomPiece(atom)
    ensures Ungroup(WithLast(b, Rep(atom, q))) == Quantify(Ungroup(b), q)
  {
    hide Ungroup, UngroupPiece, WithLast, Quantify, AtomPiece, AtomOf;
    var (init, p) := (b[..|b| - 1], AtomPiece(atom));
    LastReplaced(b, Rep(atom, q));
    AtomUngrouped(atom, q);
    UngroupSnoc(init, p);
    UngroupSnoc(init, Rep(atom, q));
    QuantifyLast(Ungroup(init), p, q);
  }

  ghost predicate Through(x: Branch, y: Branch, t: Text, d: nat, m: nat, e: nat) {
    d <= m <= |t| && BranchMatches(x, t, d, m) && BranchMatches(y, t, m, e)
  }

  lemma {:induction false} MatchWithin(b: Branch, t: Text, d: nat, e: nat)
    requires d <= |t| && BranchMatches(b, t, d, e)
    ensures d <= e <= |t|
    decreases |b|
  {
    if b != [] {
      var m: nat :| d <= m <= |t| && PieceMatches(b[0], t, d, m) && BranchMatches(b[1..], t, m, e);
      MatchWithin(b[1..], t, m, e);
    }
  }

  lemma {:induction false} MatchConcat(x: Branch, y: Branch, t: Text, d: nat, e: nat)
    requires d <= |t|
    ensures BranchMatches(x + y, t, d, e) <==> exists m: nat :: Through(x, y, t, d, m, e)
    decreases |x|
  {
    if x == [] {
      assert x + y == y;
      if BranchMatches(y, t, d, e) { assert Through(x, y, t, d, d, e); }
    } else {
      assert (x + y)[1..] == x[1..] + y && (x + y)[0] == x[0];
      if BranchMatches(x + y, t, d, e) {
        var k: nat :| d <= k <= |t| && PieceMatches(x[0], t, d, k) && BranchMatches(x[1..] + y, t, k, e);
        MatchConcat(x[1..], y, t, k, e);
        var m: nat :| Through(x[1..], y, t, k, m, e);
        assert Through(x, y, t, d, m, e);
      }
      if m: nat :| Through(x, y, t, d, m, e) {
        var k: nat :| d <= k <= |t| && PieceMatches(x[0], t, d, k) && BranchMatches(x[1..], t, k, m);
        MatchConcat(x[1..], y, t, k, e);
        MatchWithin(x[1..], t, k, m);
        assert Through(x[1..], y, t, k, m, e);
      }
    }
  }

  lemma {:induction false} SinglesMatch(s: seq<byte>, t: Text, d: nat, e: nat)
    requires d <= |t|
    ensures BranchMatches(Singles(s), t, d, e) <==> e == d + |s| && Occurs(s, t, d)
    decreases |s|
  {
    var b := Singles(s);
    if s == [] {
      assert t[d..d] == s;
    } else {
      assert b[1..] == Singles(s[1..]) && b[0] == Exact([s[0]]);
      if d < |t| {
        SinglesMatch(s[1..], t, d + 1, e);
        assert d + |s| <= |t| ==> t[d..d + |s|] == [t[d]] + t[d + 1..d + |s|];
        assert t[d..d + 1] == [t[d]];
        assert s == [s[0]] + s[1..];
        if Occurs(s, t, d) { assert t[d + 1..d + |s|] == s[1..] && t[d] == s[0]; }
        if BranchMatches(b[1..], t, d + 1, e) && t[d] == s[0] {
          assert PieceMatches(b[0], t, d, d + 1);
        }
      }
    }
  }

  lemma PieceIsBranch(p: Piece, t: Text, d: nat, e: nat)
    requires d <= |t|
    ensures BranchMatches([p], t, d, e) <==> PieceMatches(p, t, d, e) && e <= |t|
  {
    assert [p][1..] == [];
    if PieceMatches(p, t, d, e) && e <= |t| { assert BranchMatches([p][1..], t, e, e); }
  }

  /** Grouping neighbouring literals changes nothing. */
  lemma {:induction false} UngroupSame(b: Branch, t: Text, d: nat, e: nat)
    requires d <= |t|
    ensures BranchMatches(b, t, d, e) <==> BranchMatches(Ungroup(b), t, d, e)
    decreases |b|
  {
    if b != [] {
      var (x, rest) := (UngroupPiece(b[0]), b[1..]);
      MatchConcat(x, Ungroup(rest), t, d, e);
      forall m: nat | d <= m <= |t|
        ensures BranchMatches(x, t, d, m) <==> PieceMatches(b[0], t, d, m)
        ensures BranchMatches(rest, t, m, e) <==> BranchMatches(Ungroup(rest), t, m, e)
      {
        if b[0].Exact? { SinglesMatch(b[0].s, t, d, m); } else { PieceIsBranch(b[0], t, d, m); }
        UngroupSame(rest, t, m, e);
      }
      if BranchMatches(b, t, d, e) {
        var m: nat :| d <= m <= |t| && PieceMatches(b[0], t, d, m) && BranchMatches(rest, t, m, e);
        assert Through(x, Ungroup(rest), t, d, m, e);
      }
    }
  }

  lemma UngroupedSame(bs: seq<Branch>, t: Text, d: nat, e: nat)
    requires d <= |t|
    ensures PatternMatches(bs, t, d, e) <==> PatternMatches(Ungrouped(bs), t, d, e)
  {
    forall a: nat | a < |bs|
      ensures BranchMatches(bs[a], t, d, e) <==> BranchMatches(Ungrouped(bs)[a], t, d, e)
    {
      UngroupSame(bs[a], t, d, e);
    }
  }
}
