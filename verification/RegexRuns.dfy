/**
 Every way of running compiled code on a text, groups and nested loops included: where the matcher chooses
 with its failure stack, a run may go either way. A fastmap made from the code rejects no accepting run.
 */
module RegexRuns {
  import opened Bytes
  import opened RegexAst
  import opened RegexCode
  import opened RegexTree
  import opened RegexFlow
  import opened RegexNested
  import opened RegexFastmap
  import opened RegexFirst

  // The numbers the matcher has written into the code are kept apart, by the address they stand at.
  datatype Config = Config(p: nat, d: nat, counts: map<nat, int>)

  function Count(code: seq<byte>, counts: map<nat, int>, at: nat): int
    requires at + 1 < |code|
  {
    if at in counts then counts[at] else NumAt(code, at)
  }

  predicate AnchorHolds(op: byte, t: Text, d: nat)
    requires d <= |t|
  {
    if op == BEGLINE then SpotHolds(BegLine, t, d)
    else if op == ENDLINE then SpotHolds(EndLine, t, d)
    else if op == BEGBUF then SpotHolds(BegBuf, t, d)
    else if op == ENDBUF then SpotHolds(EndBuf, t, d)
    else true
  }

  // One instruction is executed.
  ghost predicate Step(code: seq<byte>, t: Text, a: Config, b: Config) {
    var p := a.p;
    Whole(code, p) && a.d <= |t|
    && if code[p] == EXACTN then
         var n := code[p + 1];
         Occurs(code[p + 2..p + 2 + n], t, a.d) && b == Config(p + 2 + n, a.d + n, a.counts)
       else if Eating(code[p]) then
         a.d < |t| && Accepts(code, p, t[a.d]) && (code[p] == ANYCHAR ==> t[a.d] != 0)
         && b == Config(p + Size(code, p), a.d + 1, a.counts)
       else if code[p] == SET_NUMBER_AT then
         Target(code, p) >= 0 && b == Config(p + 5, a.d, a.counts[Target(code, p) := NumAt(code, p + 3)])
       else if code[p] == SUCCEED_N then
         var n := Count(code, a.counts, p + 3);
         if n > 0 then b == Config(p + 5, a.d, a.counts[p + 3 := n - 1])
         else n == 0 && b.d == a.d && b.counts == a.counts && (b.p == p + 5 || b.p == Target(code, p))
       else if code[p] == JUMP_N then
         var n := Count(code, a.counts, p + 3);
         if n != 0 then b.p == Target(code, p) && b.d == a.d && b.counts == a.counts[p + 3 := n - 1]
         else b == Config(p + 5, a.d, a.counts)
       else
         b.d == a.d && b.counts == a.counts && AnchorHolds(code[p], t, a.d)
         && if Pushing(code[p]) then b.p == p + 3 || b.p == Target(code, p)
            else if Jumping(code[p]) then b.p == Target(code, p)
            else b.p == p + Size(code, p)
  }

  ghost predicate Run(code: seq<byte>, t: Text, run: seq<Config>, d: nat) {
    run != [] && run[0] == Config(0, d, map[]) && d <= |t|
    && forall k: nat | k + 1 < |run| :: Step(code, t, run[k], run[k + 1])
  }

  // Nothing has been consumed on the way to p; a succeed_n reached forward has the count compiled in.
  ghost predicate Unfed(code: seq<byte>, starts: set<nat>, c: Config, d: nat, back: bool) {
    && c.d == d && Way(code, c.p, back) && (c.p == |code| || c.p in starts)
    && (if back then exists j: nat :: HeadOf(code, starts, j, c.p)
        else c.p + 4 < |code| && code[c.p] == SUCCEED_N ==> Count(code, c.counts, c.p + 3) == NumAt(code, c.p + 3))
  }

  ghost predicate HeadOf(code: seq<byte>, starts: set<nat>, j: nat, q: nat) {
    BackJump(code, starts, j) && Target(code, j) == q
  }

  lemma StepIsMove(code: seq<byte>, starts: set<nat>, t: Text, a: Config, b: Config, d: nat, back: bool)
    requires Flows(code, starts) && Unfed(code, starts, a, d, back) && Step(code, t, a, b) && !Eating(code[a.p])
    ensures b.d == d && Moves(code, a.p, back, b.p, b.p < a.p)
  {
    hide NumAt, Local, Flows, InMap, Way, AnchorHolds;
  }

  // A succeed_n reached forward has just been given its count.
  lemma CountIsFresh(code: seq<byte>, starts: set<nat>, t: Text, a: Config, b: Config, d: nat, back: bool)
    requires Structured(code, starts) && Unfed(code, starts, a, d, back) && Step(code, t, a, b) && !Eating(code[a.p])
    requires b.p >= a.p && b.p + 4 < |code| && code[b.p] == SUCCEED_N
    ensures Count(code, b.counts, b.p + 3) == NumAt(code, b.p + 3)
  {
    hide NumAt, Local, Entered, InMap, Way, AnchorHolds;
    StepIsMove(code, starts, t, a, b, d, back);
    StepWithin(code, t, a, b);
    ForwardLeads(code, starts, a.p, back, b.p);
    var v: nat :| v in starts && Leads(code, v, b.p) && (v == a.p || Jumping(code[v]));
    assert CountedAt(code, v, b.p);
  }

  // A forward move is a step of the exploration, or leads where the jump back to its loop is redirected.
  lemma ForwardLeads(code: seq<byte>, starts: set<nat>, p: nat, back: bool, r: nat)
    requires Flows(code, starts) && p in starts && Moves(code, p, back, r, false)
    requires back ==> exists j: nat :: HeadOf(code, starts, j, p)
    ensures exists v: nat :: v in starts && Leads(code, v, r) && (v == p || Jumping(code[v]))
  {
    hide NumAt, InMap;
    StartLocal(code, starts, p);
    if Leads(code, p, r) {
    } else if Jumping(code[p]) {
      if Redirects(code, p) {
        RedirectsBack(code, starts, p);
        LoopHead(code, starts, p);
      } else {
        NotBack(code, starts, p);
      }
    } else {
      var j: nat :| HeadOf(code, starts, j, p);
      LoopHead(code, starts, j);
      StartLocal(code, starts, j);
      assert Leads(code, j, r);
    }
  }

  lemma StepStays(code: seq<byte>, starts: set<nat>, t: Text, a: Config, b: Config, d: nat, back: bool)
    requires Structured(code, starts) && Unfed(code, starts, a, d, back) && Step(code, t, a, b) && !Eating(code[a.p])
    ensures Unfed(code, starts, b, d, b.p < a.p)
  {
    hide NumAt, InMap, Way, AnchorHolds, Entered, Step, Moves, Whole, Local, Flows;
    StepIsMove(code, starts, t, a, b, d, back);
    StepWithin(code, t, a, b);
    WayOn(code, a.p, back, b.p, b.p < a.p);
    MoveLands(code, starts, a.p, back, b.p, b.p < a.p);
    if b.p < a.p {
      assert HeadOf(code, starts, a.p, b.p);
    } else if b.p + 4 < |code| && code[b.p] == SUCCEED_N {
      CountIsFresh(code, starts, t, a, b, d, back);
    }
  }

  lemma MoveLands(code: seq<byte>, starts: set<nat>, p: nat, again: bool, r: nat, back: bool)
    requires Flows(code, starts) && p in starts && Moves(code, p, again, r, back)
    ensures r == |code| || r in starts
    ensures back ==> BackJump(code, starts, p) && Target(code, p) == r
  {
    hide NumAt, InMap, Moves, Local, Redirects;
    MoveKinds(code, p, again, r, back);
    FallLands(code, starts, p, r, back);
  }

  lemma MoveKinds(code: seq<byte>, p: nat, again: bool, r: nat, back: bool)
    requires Moves(code, p, again, r, back)
    ensures Whole(code, p) && (back <==> r < p)
    ensures r == p + Size(code, p) || ((Pushing(code[p]) || Jumping(code[p])) && r == Target(code, p))
  {
    hide NumAt;
  }

  lemma FallLands(code: seq<byte>, starts: set<nat>, p: nat, r: nat, back: bool)
    requires Flows(code, starts) && p in starts && Whole(code, p) && (back <==> r < p)
    requires r == p + Size(code, p) || ((Pushing(code[p]) || Jumping(code[p])) && r == Target(code, p))
    ensures r == |code| || r in starts
    ensures back ==> BackJump(code, starts, p) && Target(code, p) == r
  {
    hide NumAt, InMap;
    StartLocal(code, starts, p);
  }

  lemma EatsFirst(code: seq<byte>, t: Text, a: Config, b: Config)
    requires Step(code, t, a, b) && Eating(code[a.p])
    ensures a.d < |t| && Accepts(code, a.p, t[a.d])
  {
    if code[a.p] == EXACTN {
      var n := code[a.p + 1];
      assert t[a.d..a.d + n][0] == code[a.p + 2..a.p + 2 + n][0];
    }
  }

  lemma {:induction false} RunsUnfed(code: seq<byte>, starts: set<nat>, t: Text, run: seq<Config>, d: nat, k: nat)
    returns (back: bool)
    requires Structured(code, starts) && Run(code, t, run, d) && k < |run|
    ensures Unfed(code, starts, run[k], d, back) || (d < |t| && CanStart(code, t[d]))
    ensures run[k].p == |code| ==> !back || (d < |t| && CanStart(code, t[d]))
    decreases k
  {
    hide NumAt, InMap, Way, AnchorHolds, Entered, Step, Moves, Whole, Accepts, Local;
    if k == 0 {
      back := false;
      WayStart(code);
    } else {
      var before := RunsUnfed(code, starts, t, run, d, k - 1);
      back := run[k].p < run[k - 1].p;
      if Unfed(code, starts, run[k - 1], d, before) {
        assert Step(code, t, run[k - 1], run[k - 1 + 1]);
        StepWithin(code, t, run[k - 1], run[k]);
        if Eating(code[run[k - 1].p]) {
          EatsFirst(code, t, run[k - 1], run[k]);
          EatenFirst(code, starts, run[k - 1], t, d, before);
        } else {
          StepStays(code, starts, t, run[k - 1], run[k], d, before);
        }
      }
    }
  }

  lemma StepWithin(code: seq<byte>, t: Text, a: Config, b: Config)
    requires Step(code, t, a, b)
    ensures a.p < |code|
  {
  }

  lemma BackIsHead(code: seq<byte>, starts: set<nat>, a: Config, d: nat, back: bool)
    requires Flows(code, starts) && Unfed(code, starts, a, d, back) && a.p < |code|
    ensures back ==> Pushing(code[a.p])
  {
    hide Way, Local, NumAt;
    if back {
      var j: nat :| HeadOf(code, starts, j, a.p);
      LoopHead(code, starts, j);
    }
  }

  // The instruction that consumes the first byte is not the head of a loop.
  lemma EatenFirst(code: seq<byte>, starts: set<nat>, a: Config, t: Text, d: nat, back: bool)
    requires Flows(code, starts) && Unfed(code, starts, a, d, back)
    requires a.p < |code| && Eating(code[a.p]) && d < |t| && Accepts(code, a.p, t[d])
    ensures CanStart(code, t[d])
  {
    hide Way, Local, NumAt, Accepts;
    BackIsHead(code, starts, a, d, back);
    assert Way(code, a.p, false) && Accepts(code, a.p, t[d]);
  }

  /** A run that reaches the end of the code started with a byte that can start one, or the code can be
      gone through without consuming anything. */
  lemma AcceptingStarts(code: seq<byte>, starts: set<nat>, t: Text, run: seq<Config>, d: nat)
    requires Structured(code, starts) && Run(code, t, run, d) && run[|run| - 1].p == |code|
    ensures Nullable(code) || (d < |t| && CanStart(code, t[d]))
  {
    hide Structured, Way, Step;
    var back := RunsUnfed(code, starts, t, run, d, |run| - 1);
  }

  /** What cannot be the first byte of a pattern that is not nullable cannot begin a match, whatever the
      failure stack does: for groups, alternatives and quantifiers nested in any way. */
  lemma MatchesStartInFirst(n: Node, t: Text, run: seq<Config>, d: nat)
    requires WfNode(n) && Fits(n) && !Trailing(n) && !NullOf(n)
    requires Run(Code(n), t, run, d) && run[|run| - 1].p == |Code(n)|
    ensures d < |t| && t[d] in FirstOf(n)
  {
    hide Code, Starts, Fits, Run, Explored, ExploredFirst, Nullable, CanStart, NullOf, FirstOf;
    CompiledFlows(n);
    assert run != [] by { RunNotEmpty(Code(n), t, run, d); }
    AcceptingStarts(Code(n), Starts(n, 0), t, run, d);
    StructuredParts(Code(n), Starts(n, 0));
    EmptyIsNull(n);
    ExplorationIsExact(Code(n), Starts(n, 0));
    ExplorationIsFirst(n);
  }

  /** re_compile_fastmap on the code of any pattern that does not end with an empty alternative: can_be_null
      is exact, and unless it is set the fastmap is exactly the set of bytes a match can start with. Less
      than 7680 bytes of code never need more room than there is. */
  method PatternFastmap(buf: array<byte>, used: nat, fastmap: array<bool>, ghost n: Node)
    returns (ok: bool, canBeNull: bool)
    requires used <= buf.Length && fastmap.Length == 256
    requires WfNode(n) && Fits(n) && !Trailing(n) && buf[..used] == Code(n)
    modifies fastmap
    ensures used < 7680 ==> ok
    ensures ok ==> (canBeNull <==> NullOf(n))
    ensures ok && !canBeNull ==> forall c: byte :: fastmap[c] <==> c in FirstOf(n)
  {
    hide Code, Starts, Fits, Explored, ExploredFirst, NullOf, FirstOf, Flows, NeedBounded;
    CompiledFlows(n);
    StructuredParts(Code(n), Starts(n, 0));
    ExplorationIsFirst(n);
    ThirdBounds(Code(n), Starts(n, 0));
    ok, canBeNull := ReCompileFastmap(buf, used, fastmap, Starts(n, 0), Third(used));
  }

  lemma RunNotEmpty(code: seq<byte>, t: Text, run: seq<Config>, d: nat)
    requires Run(code, t, run, d)
    ensures run != []
  {
  }
}
