/**
 The control points of compiled code, and how one instruction moves between them. `Rem` is the list
 of events still to come; every step keeps it, and every step lowers `Weight`.
 */
module RegexState {
  import opened RegexAst
  import opened RegexCode
  import opened RegexTrace

  // Places inside an item where the program counter can be.
  datatype Phase =
    | Start                 // first instruction
    | LoopTop               // on_failure_jump of `\+`, behind its dummy_failure_jump
    | Body                  // the atom of `*`, `\+`, `\?`
    | Back                  // the backward jump of `*`, `\+`
    | SecondSet             // second set_number_at of an interval
    | Succ(c: nat)          // succeed_n, after c repetitions
    | NopA(c: nat)          // the two bytes of an exhausted succeed_n count, executed as no_op
    | NopB(c: nat)
    | BodyN(c: nat)         // the atom of an interval
    | JumpN(c: nat)         // jump_n, after c repetitions

  // A failure stack entry; Dummy is what dummy_failure_jump pushes.
  datatype Mark = Dummy | Point(i: nat, d: nat)

  predicate IsRep(items: seq<Item>, i: nat) { i < |items| && items[i].Term? && items[i].piece.Rep? }

  predicate PhaseOk(items: seq<Item>, i: nat, ph: Phase) {
    if i >= |items| then i == |items| && ph == Start
    else match ph
      case Start => true
      case LoopTop => IsLoop(items, i) && items[i].piece.q.Plus?
      case Body => IsRep(items, i) && !items[i].piece.q.Interval?
      case Back => IsLoop(items, i)
      case SecondSet => IsCounted(items, i) && items[i].piece.q.hi > 1
      case Succ(c) => IsCounted(items, i) && c < items[i].piece.q.hi
      case NopA(c) => IsCounted(items, i) && items[i].piece.q.lo <= c < items[i].piece.q.hi
      case NopB(c) => IsCounted(items, i) && items[i].piece.q.lo <= c < items[i].piece.q.hi
      case BodyN(c) => IsCounted(items, i) && c < items[i].piece.q.hi
      case JumpN(c) => IsCounted(items, i) && items[i].piece.q.hi > 1 && 0 < c <= items[i].piece.q.hi
  }

  // Offset of the atom inside item i.
  function AtomOff(q: Quant): nat {
    match q
    case Star => 3
    case Plus => 6
    case Quest => 3
    case Interval(_, hi) => if hi == 0 then 3 else if hi == 1 then 10 else 15
  }

  function PhaseOff(items: seq<Item>, i: nat, ph: Phase): nat
    requires PhaseOk(items, i, ph)
  {
    match ph
    case Start => 0
    case LoopTop => 3
    case Body => AtomOff(items[i].piece.q)
    case Back => AtomOff(items[i].piece.q) + |AtomCode(items[i].piece.atom)|
    case SecondSet => 5
    case Succ(_) => AtomOff(items[i].piece.q) - 5
    case NopA(_) => AtomOff(items[i].piece.q) - 2
    case NopB(_) => AtomOff(items[i].piece.q) - 1
    case BodyN(_) => AtomOff(items[i].piece.q)
    case JumpN(_) => AtomOff(items[i].piece.q) + |AtomCode(items[i].piece.atom)|
  }

  function Addr(items: seq<Item>, i: nat, ph: Phase): nat
    requires PhaseOk(items, i, ph)
  {
    Off(items, i) + PhaseOff(items, i, ph)
  }

  // ---------- What is still to come ----------

  ghost predicate MarksOk(items: seq<Item>, t: Text, marks: seq<Mark>) {
    forall k: nat | k < |marks| && marks[k].Point? :: Landing(items, marks[k].i) && marks[k].d <= |t|
  }

  ghost function FromStack(items: seq<Item>, t: Text, marks: seq<Mark>): seq<Event>
    requires Linked(items) && MarksOk(items, t, marks)
  {
    if marks == [] then []
    else
      var (rest, top) := (marks[..|marks| - 1], marks[|marks| - 1]);
      if top.Dummy? then FromStack(items, t, rest)
      else Resume(items, t, top.i, top.d, |rest|) + FromStack(items, t, rest)
  }

  // Loops with pop_failure_jump own the top of the stack while their body runs.
  predicate OwnsTop(items: seq<Item>, i: nat, ph: Phase) {
    IsLoop(items, i) && PopChosen(items, i) && (ph.Body? || ph.Back?)
  }

  ghost predicate Sane(items: seq<Item>, t: Text, i: nat, ph: Phase, d: nat, marks: seq<Mark>) {
    Linked(items) && PhaseOk(items, i, ph) && d <= |t| && MarksOk(items, t, marks)
    && (OwnsTop(items, i, ph) ==> marks != [])
  }

  ghost function Rem(items: seq<Item>, t: Text, i: nat, ph: Phase, d: nat, marks: seq<Mark>): seq<Event>
    requires Sane(items, t, i, ph, d, marks)
  {
    var depth := |marks|;
    match ph
    case Start => Ev(items, t, i, d, depth) + FromStack(items, t, marks)
    case LoopTop => Loop(items, t, i, d, depth) + FromStack(items, t, marks)
    case Body =>
      if !Unit(items[i].piece.atom, t, d) then FromStack(items, t, marks)
      else if items[i].piece.q.Quest? then Ev(items, t, i + 1, d + 1, depth) + FromStack(items, t, marks)
      else AtBack(items, t, i, d + 1, marks)
    case Back => AtBack(items, t, i, d, marks)
    case SecondSet => Count(items, t, i, 0, d, depth) + FromStack(items, t, marks)
    case Succ(c) => Count(items, t, i, c, d, depth) + FromStack(items, t, marks)
    case NopA(c) => AtBodyN(items, t, i, c, d, marks)
    case NopB(c) => AtBodyN(items, t, i, c, d, marks)
    case BodyN(c) => AtBodyN(items, t, i, c, d, marks)
    case JumpN(c) => Again(items, t, i, c, d, depth) + FromStack(items, t, marks)
  }

  ghost function AtBack(items: seq<Item>, t: Text, i: nat, d: nat, marks: seq<Mark>): seq<Event>
    requires Linked(items) && IsLoop(items, i) && d <= |t| && MarksOk(items, t, marks)
    requires (PopChosen(items, i) ==> marks != [])
  {
    if PopChosen(items, i) then Loop(items, t, i, d, |marks| - 1) + FromStack(items, t, marks[..|marks| - 1])
    else Loop(items, t, i, d, |marks|) + FromStack(items, t, marks)
  }

  ghost function AtBodyN(items: seq<Item>, t: Text, i: nat, c: nat, d: nat, marks: seq<Mark>): seq<Event>
    requires Linked(items) && IsCounted(items, i) && c < items[i].piece.q.hi && d <= |t| && MarksOk(items, t, marks)
  {
    if Unit(items[i].piece.atom, t, d) then Again(items, t, i, c + 1, d + 1, |marks|) + FromStack(items, t, marks)
    else FromStack(items, t, marks)
  }

  // ---------- Termination ----------

  function Pow3(n: nat): (r: nat)
    ensures r > 0
  {
    if n == 0 then 1 else 3 * Pow3(n - 1)
  }

  lemma {:induction false} Pow3Grows(a: nat, b: nat)
    requires a < b
    ensures 3 * Pow3(a) <= Pow3(b)
    decreases b
  {
    if a < b - 1 { Pow3Grows(a, b - 1); }
  }

  function PhaseRank(ph: Phase): nat {
    match ph
    case Start => 7
    case LoopTop => 5
    case Body => 2
    case Back => 9
    case SecondSet => 6
    case Succ(_) => 5
    case NopA(_) => 4
    case NopB(_) => 3
    case BodyN(_) => 2
    case JumpN(_) => 9
  }

  function Rank(items: seq<Item>, t: Text, i: nat, ph: Phase, d: nat): nat
    requires i <= |items| && d <= |t|
  {
    16 * ((|items| - i) * (|t| + 1) + (|t| - d)) + PhaseRank(ph)
  }

  lemma RankLaterItem(items: seq<Item>, t: Text, i: nat, ph: Phase, d: nat, j: nat, ph': Phase, e: nat)
    requires i < j <= |items| && d <= |t| && e <= |t|
    ensures Rank(items, t, j, ph', e) < Rank(items, t, i, ph, d)
  {
    OneMore(|items| - j, |items| - i, |t| + 1);
  }

  lemma OneMore(a: nat, b: nat, n: nat)
    requires a < b
    ensures a * n + n <= b * n
  {
    assert (b - a - 1) * n >= 0;
    assert b * n == (a + 1) * n + (b - a - 1) * n;
  }

  ghost function StackWeight(items: seq<Item>, t: Text, marks: seq<Mark>): nat
    requires MarksOk(items, t, marks)
  {
    if marks == [] then 0
    else
      var top := marks[|marks| - 1];
      StackWeight(items, t, marks[..|marks| - 1])
      + (if top.Dummy? then 0 else Pow3(Rank(items, t, top.i, Start, top.d)))
  }

  ghost function Weight(items: seq<Item>, t: Text, i: nat, ph: Phase, d: nat, marks: seq<Mark>): nat
    requires i <= |items| && d <= |t| && MarksOk(items, t, marks)
  {
    Pow3(Rank(items, t, i, ph, d)) + StackWeight(items, t, marks)
  }

  lemma WeightMove(items: seq<Item>, t: Text, i: nat, ph: Phase, d: nat, j: nat, ph': Phase, e: nat, marks: seq<Mark>)
    requires i <= |items| && j <= |items| && d <= |t| && e <= |t| && MarksOk(items, t, marks)
    requires Rank(items, t, j, ph', e) < Rank(items, t, i, ph, d)
    ensures Weight(items, t, j, ph', e, marks) < Weight(items, t, i, ph, d, marks)
  {
    Pow3Grows(Rank(items, t, j, ph', e), Rank(items, t, i, ph, d));
  }

  lemma WeightPush(items: seq<Item>, t: Text, i: nat, ph: Phase, d: nat, ph': Phase, marks: seq<Mark>, m: Mark, j: nat)
    requires i < |items| && j <= |items| && d <= |t| && MarksOk(items, t, marks)
    requires Rank(items, t, j, ph', d) < Rank(items, t, i, ph, d)
    requires m.Point? ==>
               Landing(items, m.i) && m.d <= |t| && Rank(items, t, m.i, Start, m.d) < Rank(items, t, i, ph, d)
    ensures MarksOk(items, t, marks + [m])
    ensures Weight(items, t, j, ph', d, marks + [m]) < Weight(items, t, i, ph, d, marks)
  {
    var all := marks + [m];
    assert all[..|all| - 1] == marks;
    Pow3Grows(Rank(items, t, j, ph', d), Rank(items, t, i, ph, d));
    if m.Point? { Pow3Grows(Rank(items, t, m.i, Start, m.d), Rank(items, t, i, ph, d)); }
  }
}
