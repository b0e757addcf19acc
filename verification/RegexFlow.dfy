/**
 Compiled code as a graph: where the instruction at an address can lead, what every jump has to satisfy
 for the exploration of re_compile_fastmap to end, and how control gets into the body of a loop.
 Words, back-references and the Emacs opcodes are not instructions here.
 */
module RegexFlow {
  import opened Bytes
  import opened RegexCode
  import opened RegexTree

  predicate Eating(op: byte) { op in {EXACTN, ANYCHAR, CHARSET, CHARSET_NOT} }

  predicate Pushing(op: byte) { op == ON_FAILURE_JUMP || op == SUCCEED_N }

  predicate Jumping(op: byte) {
    op in {JUMP, JUMP_PAST_ALT, POP_FAILURE_JUMP, MAYBE_POP_JUMP, DUMMY_FAILURE_JUMP, JUMP_N}
  }

  predicate Plain(op: byte) { op in {NO_OP, BEGLINE, ENDLINE, BEGBUF, ENDBUF, PUSH_DUMMY_FAILURE} }

  predicate Marking(op: byte) { op == START_MEMORY || op == STOP_MEMORY }

  predicate Counting(op: byte) { op == SUCCEED_N || op == JUMP_N || op == SET_NUMBER_AT }

  // An instruction stands at p, all of it within the code.
  predicate Whole(code: seq<byte>, p: nat) {
    p < |code|
    && if code[p] == EXACTN then p + 1 < |code| && code[p + 1] > 0 && p + 2 + code[p + 1] <= |code|
       else if code[p] == CHARSET || code[p] == CHARSET_NOT then
         p + 1 < |code| && code[p + 1] <= 32 && p + 2 + code[p + 1] <= |code|
       else if Counting(code[p]) then p + 5 <= |code|
       else if Jumping(code[p]) || Pushing(code[p]) || Marking(code[p]) then p + 3 <= |code|
       else code[p] == ANYCHAR || Plain(code[p])
  }

  function Size(code: seq<byte>, p: nat): (n: nat)
    requires Whole(code, p)
    ensures n > 0 && p + n <= |code|
  {
    if code[p] == EXACTN || code[p] == CHARSET || code[p] == CHARSET_NOT then (code[p + 1] as nat) + 2
    else if Counting(code[p]) then 5
    else if Jumping(code[p]) || Pushing(code[p]) || Marking(code[p]) then 3
    else 1
  }

  // The address a relative address in bytes 1 and 2 of the instruction denotes.
  function Target(code: seq<byte>, p: nat): int
    requires p + 2 < |code|
  {
    p + 3 + NumAt(code, p + 1)
  }

  // The bytes that pass an instruction; `.` is taken to match NUL as well.
  predicate Accepts(code: seq<byte>, p: nat, c: byte) {
    Whole(code, p) && Eating(code[p])
    && if code[p] == EXACTN then c == code[p + 2]
       else if code[p] == ANYCHAR then true
       else InMap(code[p + 1..p + 2 + code[p + 1]], c) == (code[p] == CHARSET)
  }

  // ---------- What holds of every jump ----------

  predicate Lands(code: seq<byte>, starts: set<nat>, a: int) {
    a == |code| || (0 <= a < |code| && a in starts)
  }

  // Forward; a jump to the very next instruction must not meet one that pushes.
  predicate Ahead(code: seq<byte>, starts: set<nat>, p: nat)
    requires p + 2 < |code|
  {
    code[p] != JUMP_N && Lands(code, starts, Target(code, p))
    && (Target(code, p) > p + 3 || (Target(code, p) == p + 3 < |code| && !Pushing(code[p + 3])))
  }

  // Backward, to an instruction that pushes an address beyond the jump.
  predicate Loops(code: seq<byte>, starts: set<nat>, p: nat)
    requires p + 2 < |code|
  {
    var q := Target(code, p);
    0 <= q < p && q in starts && Whole(code, q) && Pushing(code[q]) && Target(code, q) > p
    && (code[p] == JUMP_N ==> Target(code, q) == p + 5)
  }

  predicate Local(code: seq<byte>, starts: set<nat>, p: nat) {
    Whole(code, p)
    && Lands(code, starts, p + Size(code, p))
    && (Pushing(code[p]) ==> p + Size(code, p) <= Target(code, p) && Lands(code, starts, Target(code, p)))
    && (Jumping(code[p]) ==> Ahead(code, starts, p) || Loops(code, starts, p))
  }

  // The instructions of the code start at `starts`; the first one is at 0.
  ghost predicate Flows(code: seq<byte>, starts: set<nat>) {
    (code != [] ==> 0 in starts) && forall p: nat | p in starts :: Local(code, starts, p)
  }

  // ---------- Where the exploration goes ----------

  // A jump that does not lead forward, to an instruction that pushes: the exploration goes on where that
  // one would go on failure.
  predicate Redirects(code: seq<byte>, p: nat) {
    p + 2 < |code| && Jumping(code[p]) && NumAt(code, p + 1) <= 0
    && 0 <= Target(code, p) && Target(code, p) + 2 < |code| && Pushing(code[Target(code, p)])
  }

  predicate Leads(code: seq<byte>, p: nat, r: nat) {
    Whole(code, p) && !Eating(code[p])
    && if Pushing(code[p]) then
         r == p + Size(code, p) || ((code[p] == SUCCEED_N ==> NumAt(code, p + 3) == 0) && r == Target(code, p))
       else if Redirects(code, p) then r == Target(code, Target(code, p))
       else if Jumping(code[p]) then r == Target(code, p)
       else r == p + Size(code, p)
  }

  // Explored in n steps.
  ghost predicate ExploredIn(code: seq<byte>, n: nat, r: nat) {
    if n == 0 then r == 0 else exists p: nat :: ExploredIn(code, n - 1, p) && Leads(code, p, r)
  }

  ghost predicate Explored(code: seq<byte>, r: nat) { exists n: nat :: ExploredIn(code, n, r) }

  ghost predicate ExploredFirst(code: seq<byte>, c: byte) { exists p: nat :: Explored(code, p) && Accepts(code, p, c) }

  lemma ExploredOn(code: seq<byte>, p: nat, r: nat)
    requires Explored(code, p) && Leads(code, p, r)
    ensures Explored(code, r)
  {
    var n: nat :| ExploredIn(code, n, p);
    assert ExploredIn(code, n + 1, r);
  }

  lemma ExploredStart(code: seq<byte>)
    ensures Explored(code, 0)
  {
    assert ExploredIn(code, 0, 0);
  }

  // ---------- Ways that consume nothing ----------

  // Control moves from p to r. `again` says that p was reached by a backward jump, r by one if `back`:
  // a succeed_n with repetitions to do can be left only after such a jump.
  predicate Moves(code: seq<byte>, p: nat, again: bool, r: nat, back: bool) {
    Whole(code, p) && !Eating(code[p]) && (back <==> r < p)
    && if Pushing(code[p]) then
         r == p + Size(code, p)
         || ((code[p] == SUCCEED_N && !again ==> NumAt(code, p + 3) == 0) && r == Target(code, p))
       else if code[p] == JUMP_N then r == Target(code, p) || r == p + 5
       else if Jumping(code[p]) then r == Target(code, p)
       else r == p + Size(code, p)
  }

  ghost predicate WayIn(code: seq<byte>, n: nat, r: nat, back: bool) {
    if n == 0 then r == 0 && !back
    else exists p: nat, again: bool :: WayIn(code, n - 1, p, again) && Moves(code, p, again, r, back)
  }

  ghost predicate Way(code: seq<byte>, r: nat, back: bool) { exists n: nat :: WayIn(code, n, r, back) }

  // The end of the code can be reached without consuming anything.
  ghost predicate Nullable(code: seq<byte>) { Way(code, |code|, false) }

  // A byte that can be consumed first.
  ghost predicate CanStart(code: seq<byte>, c: byte) { exists p: nat :: Way(code, p, false) && Accepts(code, p, c) }

  lemma WayOn(code: seq<byte>, p: nat, again: bool, r: nat, back: bool)
    requires Way(code, p, again) && Moves(code, p, again, r, back)
    ensures Way(code, r, back)
  {
    var n: nat :| WayIn(code, n, p, again);
    assert WayIn(code, n + 1, r, back);
  }

  lemma WayStart(code: seq<byte>)
    ensures Way(code, 0, false)
  {
    assert WayIn(code, 0, 0, false);
  }

  // ---------- Loops are entered from the front ----------

  // j jumps back; its loop goes from Body to j.
  ghost predicate BackJump(code: seq<byte>, starts: set<nat>, j: nat) {
    j in starts && j + 2 < |code| && Jumping(code[j]) && Loops(code, starts, j)
  }

  ghost predicate InLoop(code: seq<byte>, starts: set<nat>, j: nat, v: nat)
    requires BackJump(code, starts, j)
  {
    Target(code, j) < v <= j
  }

  // Nothing outside a loop leads into it but to its first instruction.
  ghost predicate EnteredAt(code: seq<byte>, starts: set<nat>, j: nat, v: nat, r: nat)
    requires BackJump(code, starts, j)
  {
    var q := Target(code, j);
    InLoop(code, starts, j, r) && r != q + Size(code, q) ==> InLoop(code, starts, j, v)
  }

  ghost predicate Entered(code: seq<byte>, starts: set<nat>) {
    forall j: nat, v: nat, r: nat | BackJump(code, starts, j) && v in starts && Leads(code, v, r) ::
      EnteredAt(code, starts, j, v, r)
  }

  // ---------- What the exploration finds is what there is ----------

  lemma StartLocal(code: seq<byte>, starts: set<nat>, p: nat)
    requires Flows(code, starts) && p in starts
    ensures Local(code, starts, p)
  {
  }

  lemma LoopHead(code: seq<byte>, starts: set<nat>, j: nat)
    requires Flows(code, starts) && BackJump(code, starts, j)
    ensures Redirects(code, j) && InLoop(code, starts, j, j)
    ensures var q := Target(code, j);
            0 <= q < j && q in starts && Local(code, starts, q) && Whole(code, q) && Pushing(code[q])
            && Target(code, q) > j
            && (code[j] == JUMP_N ==> Target(code, q) == j + 5)
  {
    hide NumAt;
    var q: nat := Target(code, j);
    assert Local(code, starts, q);
  }

  lemma RedirectsBack(code: seq<byte>, starts: set<nat>, p: nat)
    requires Flows(code, starts) && p in starts && Redirects(code, p)
    ensures BackJump(code, starts, p)
  {
    hide NumAt;
    assert Local(code, starts, p);
  }

  lemma ExploredIsStart(code: seq<byte>, starts: set<nat>, p: nat, r: nat)
    requires Flows(code, starts) && p in starts && Leads(code, p, r)
    ensures r == |code| || r in starts
    ensures Redirects(code, p) ==> BackJump(code, starts, p)
    ensures Jumping(code[p]) && !Redirects(code, p) ==> r > p
  {
    assert Local(code, starts, p);
    if Jumping(code[p]) && Loops(code, starts, p) {
      var q: nat := Target(code, p);
      assert Local(code, starts, q);
    }
  }

  lemma {:induction false} ExploredStarts(code: seq<byte>, starts: set<nat>, n: nat, r: nat)
    requires Flows(code, starts) && code != [] && ExploredIn(code, n, r)
    ensures r == |code| || r in starts
    decreases n
  {
    if n > 0 {
      var p: nat :| ExploredIn(code, n - 1, p) && Leads(code, p, r);
      ExploredStarts(code, starts, n - 1, p);
      ExploredIsStart(code, starts, p, r);
    }
  }

  lemma LeadsFrom(code: seq<byte>, p: nat, r: nat)
    requires Leads(code, p, r)
    ensures p < |code|
  {
  }

  // An explored instruction of a loop has been reached through the first one.
  lemma {:induction false} LoopEntered(code: seq<byte>, starts: set<nat>, n: nat, j: nat, v: nat)
    requires Flows(code, starts) && Entered(code, starts) && ExploredIn(code, n, v)
    requires BackJump(code, starts, j) && InLoop(code, starts, j, v)
    ensures var q := Target(code, j); Whole(code, q) && Explored(code, q + Size(code, q))
    decreases n
  {
    hide Leads, Local, Whole, Size, NumAt, Redirects, Flows;
    LoopHead(code, starts, j);
    var q: nat := Target(code, j);
    if n > 0 && v != q + Size(code, q) {
      var p: nat :| ExploredIn(code, n - 1, p) && Leads(code, p, v);
      ExploredStarts(code, starts, n - 1, p);
      LeadsFrom(code, p, v);
      assert EnteredAt(code, starts, j, p, v);
      LoopEntered(code, starts, n - 1, j, p);
    }
  }

  lemma OnceForward(code: seq<byte>, starts: set<nat>, p: nat, r: nat)
    requires Flows(code, starts) && p in starts && Leads(code, p, r) && !Redirects(code, p)
    ensures Moves(code, p, false, r, false)
  {
    hide NumAt;
    StartLocal(code, starts, p);
    NotBack(code, starts, p);
  }

  // One step of the exploration is one or two moves.
  lemma LeadsIsMoves(code: seq<byte>, starts: set<nat>, p: nat, r: nat)
    requires Flows(code, starts) && p in starts && Leads(code, p, r) && Way(code, p, false)
    ensures Way(code, r, false)
  {
    hide NumAt, Way, Local, Flows;
    if Redirects(code, p) {
      RedirectsBack(code, starts, p);
      LoopHead(code, starts, p);
      var q: nat := Target(code, p);
      WayOn(code, p, false, q, true);
      WayOn(code, q, true, r, false);
    } else {
      OnceForward(code, starts, p, r);
      WayOn(code, p, false, r, false);
    }
  }

  lemma {:induction false} ExploredIsWay(code: seq<byte>, starts: set<nat>, n: nat, r: nat)
    requires Flows(code, starts) && code != [] && ExploredIn(code, n, r)
    ensures Way(code, r, false)
    decreases n
  {
    if n == 0 {
      WayStart(code);
    } else {
      var p: nat :| ExploredIn(code, n - 1, p) && Leads(code, p, r);
      ExploredStarts(code, starts, n - 1, p);
      ExploredIsWay(code, starts, n - 1, p);
      LeadsIsMoves(code, starts, p, r);
    }
  }

  // Where a way has led: an explored address, or the head of a loop both of whose continuations are.
  ghost predicate Known(code: seq<byte>, starts: set<nat>, p: nat, again: bool) {
    if again then p in starts && Whole(code, p) && Pushing(code[p]) && Explored(code, p + Size(code, p))
                  && Target(code, p) >= 0 && Explored(code, Target(code, p))
    else Explored(code, p)
  }

  lemma MovesAreKnown(code: seq<byte>, starts: set<nat>, p: nat, again: bool, r: nat, back: bool)
    requires Flows(code, starts) && Entered(code, starts) && code != []
    requires Known(code, starts, p, again) && Moves(code, p, again, r, back)
    ensures Known(code, starts, r, back)
  {
    hide NumAt, ExploredIn, Leads, Local, Redirects;
    assert p < |code|;
    hide Moves, Whole;
    if again {
      HeadMoves(code, starts, p, r, back);
    } else {
      var n: nat :| ExploredIn(code, n, p);
      ExploredStarts(code, starts, n, p);
      if Redirects(code, p) { BackMoves(code, starts, n, p, r, back); } else { ForwardMoves(code, starts, p, r, back); }
    }
  }

  lemma HeadMoves(code: seq<byte>, starts: set<nat>, p: nat, r: nat, back: bool)
    requires Flows(code, starts) && Known(code, starts, p, true) && Moves(code, p, true, r, back)
    ensures Known(code, starts, r, back)
  {
    hide NumAt, Explored;
    assert Local(code, starts, p);
  }

  lemma NotBack(code: seq<byte>, starts: set<nat>, p: nat)
    requires Flows(code, starts) && p in starts && !Redirects(code, p)
    ensures p < |code| && (Jumping(code[p]) ==> Whole(code, p) && Target(code, p) > p && code[p] != JUMP_N)
  {
    hide NumAt;
    assert Local(code, starts, p);
    if Jumping(code[p]) && Loops(code, starts, p) { LoopHead(code, starts, p); }
  }

  lemma ForwardMoves(code: seq<byte>, starts: set<nat>, p: nat, r: nat, back: bool)
    requires Flows(code, starts) && p in starts && Explored(code, p) && Moves(code, p, false, r, back)
    requires !Redirects(code, p)
    ensures Known(code, starts, r, back)
  {
    hide NumAt, Explored;
    assert Local(code, starts, p);
    NotBack(code, starts, p);
    assert Leads(code, p, r);
    ExploredOn(code, p, r);
  }

  // A backward jump: the head of its loop, or for jump_n also what follows it.
  lemma BackMoves(code: seq<byte>, starts: set<nat>, n: nat, p: nat, r: nat, back: bool)
    requires Flows(code, starts) && Entered(code, starts)
    requires p in starts && ExploredIn(code, n, p) && Moves(code, p, false, r, back) && Redirects(code, p)
    ensures Known(code, starts, r, back)
  {
    hide NumAt, Explored, ExploredIn, Entered, Local, Flows;
    RedirectsBack(code, starts, p);
    LoopHead(code, starts, p);
    var q: nat := Target(code, p);
    LoopEntered(code, starts, n, p, p);
    assert Explored(code, p) by { ExploredNow(code, n, p); }
    assert Leads(code, p, Target(code, q));
    ExploredOn(code, p, Target(code, q));
  }

  lemma ExploredNow(code: seq<byte>, n: nat, p: nat)
    requires ExploredIn(code, n, p)
    ensures Explored(code, p)
  {
  }

  lemma {:induction false} WaysAreKnown(code: seq<byte>, starts: set<nat>, n: nat, r: nat, back: bool)
    requires Flows(code, starts) && Entered(code, starts) && code != [] && WayIn(code, n, r, back)
    ensures Known(code, starts, r, back)
    decreases n
  {
    if n == 0 {
      ExploredStart(code);
    } else {
      var p: nat, again: bool :| WayIn(code, n - 1, p, again) && Moves(code, p, again, r, back);
      WaysAreKnown(code, starts, n - 1, p, again);
      MovesAreKnown(code, starts, p, again, r, back);
    }
  }

  lemma ExploredSame(code: seq<byte>, starts: set<nat>, r: nat)
    requires Flows(code, starts) && Entered(code, starts) && code != []
    ensures Explored(code, r) <==> Way(code, r, false)
  {
    if n: nat :| ExploredIn(code, n, r) { ExploredIsWay(code, starts, n, r); }
    if n: nat :| WayIn(code, n, r, false) { WaysAreKnown(code, starts, n, r, false); }
  }

  /** The shortcut the exploration takes at a backward jump loses nothing and adds nothing: it finds just
      what the ways through the code find, each loop body as often as it likes. */
  lemma ExplorationIsExact(code: seq<byte>, starts: set<nat>)
    requires Flows(code, starts) && Entered(code, starts) && code != []
    ensures Explored(code, |code|) <==> Nullable(code)
    ensures forall c: byte :: ExploredFirst(code, c) <==> CanStart(code, c)
  {
    ExploredSame(code, starts, |code|);
    forall c: byte ensures ExploredFirst(code, c) <==> CanStart(code, c) {
      if p: nat :| Explored(code, p) && Accepts(code, p, c) {
        ExploredSame(code, starts, p);
        assert Way(code, p, false) && Accepts(code, p, c);
      }
      if p: nat :| Way(code, p, false) && Accepts(code, p, c) {
        ExploredSame(code, starts, p);
        assert Explored(code, p) && Accepts(code, p, c);
      }
    }
  }
}
