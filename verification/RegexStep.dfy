/** One lemma per kind of instruction: the events to come are kept and the weight falls. */
module RegexStep {
  import opened RegexAst
  import opened RegexCode
  import opened RegexTrace
  import opened RegexState

  ghost predicate Moves(items: seq<Item>, t: Text, i: nat, ph: Phase, d: nat, marks: seq<Mark>,
                        j: nat, ph': Phase, e: nat, marks': seq<Mark>)
    requires Sane(items, t, i, ph, d, marks)
  {
    && Sane(items, t, j, ph', e, marks')
    && Rem(items, t, j, ph', e, marks') == Rem(items, t, i, ph, d, marks)
    && Weight(items, t, j, ph', e, marks') < Weight(items, t, i, ph, d, marks)
  }

  lemma StepExact(items: seq<Item>, t: Text, i: nat, d: nat, marks: seq<Mark>)
    requires Sane(items, t, i, Start, d, marks) && i < |items| && items[i].Term? && items[i].piece.Exact?
    ensures var s := items[i].piece.s;
            if Occurs(s, t, d) then Moves(items, t, i, Start, d, marks, i + 1, Start, d + |s|, marks)
            else Rem(items, t, i, Start, d, marks) == FromStack(items, t, marks)
  {
    var s := items[i].piece.s;
    if Occurs(s, t, d) {
      RankLaterItem(items, t, i, Start, d, i + 1, Start, d + |s|);
      WeightMove(items, t, i, Start, d, i + 1, Start, d + |s|, marks);
    } else {
      assert [] + FromStack(items, t, marks) == FromStack(items, t, marks);
    }
  }

  lemma StepAnchor(items: seq<Item>, t: Text, i: nat, d: nat, marks: seq<Mark>)
    requires Sane(items, t, i, Start, d, marks) && i < |items| && items[i].Term? && items[i].piece.Anchor?
    ensures if SpotHolds(items[i].piece.spot, t, d) then Moves(items, t, i, Start, d, marks, i + 1, Start, d, marks)
            else Rem(items, t, i, Start, d, marks) == FromStack(items, t, marks)
  {
    if SpotHolds(items[i].piece.spot, t, d) {
      RankLaterItem(items, t, i, Start, d, i + 1, Start, d);
      WeightMove(items, t, i, Start, d, i + 1, Start, d, marks);
    } else {
      assert [] + FromStack(items, t, marks) == FromStack(items, t, marks);
    }
  }

  // The atom executed at (i, ph).
  predicate AtAtom(items: seq<Item>, i: nat, ph: Phase) {
    PhaseOk(items, i, ph) && i < |items|
    && ((ph.Start? && items[i].Term? && items[i].piece.One?) || ph.Body? || ph.BodyN?)
  }

  function AtomOf(items: seq<Item>, i: nat, ph: Phase): Atom
    requires AtAtom(items, i, ph)
  {
    items[i].piece.atom
  }

  function AfterAtom(items: seq<Item>, i: nat, ph: Phase): (r: (nat, Phase))
    requires AtAtom(items, i, ph)
    ensures PhaseOk(items, r.0, r.1)
  {
    if ph.Body? && !items[i].piece.q.Quest? then (i, Back)
    else if ph.BodyN? && items[i].piece.q.hi > 1 then (i, JumpN(ph.c + 1))
    else (i + 1, Start)
  }

  lemma StepAtom(items: seq<Item>, t: Text, i: nat, ph: Phase, d: nat, marks: seq<Mark>)
    requires AtAtom(items, i, ph) && Sane(items, t, i, ph, d, marks)
    ensures if Unit(AtomOf(items, i, ph), t, d)
            then Moves(items, t, i, ph, d, marks, AfterAtom(items, i, ph).0, AfterAtom(items, i, ph).1, d + 1, marks)
            else Rem(items, t, i, ph, d, marks) == FromStack(items, t, marks)
  {
    if Unit(AtomOf(items, i, ph), t, d) {
      var (j, ph') := AfterAtom(items, i, ph);
      if j > i { RankLaterItem(items, t, i, ph, d, j, ph', d + 1); }
      WeightMove(items, t, i, ph, d, j, ph', d + 1, marks);
    } else if ph.Start? {
      assert [] + FromStack(items, t, marks) == FromStack(items, t, marks);
    }
  }

  // Instructions that push a failure point for the item `target`.
  predicate AtPush(items: seq<Item>, i: nat, ph: Phase) {
    PhaseOk(items, i, ph) && i < |items|
    && match ph
       case Start => items[i].Fork? || (IsRep(items, i) && (items[i].piece.q.Star? || items[i].piece.q.Quest?))
       case LoopTop => true
       case Succ(c) => items[i].piece.q.lo <= c
       case _ => false
  }

  function PushTarget(items: seq<Item>, i: nat): nat
    requires i < |items|
  {
    if items[i].Fork? then i + items[i].span else i + 1
  }

  function AfterPush(items: seq<Item>, i: nat, ph: Phase): (r: (nat, Phase))
    requires AtPush(items, i, ph)
    ensures PhaseOk(items, r.0, r.1)
  {
    if items[i].Fork? then (i + 1, Start) else if ph.Succ? then (i, NopA(ph.c)) else (i, Body)
  }

  lemma StackTop(items: seq<Item>, t: Text, marks: seq<Mark>, m: Mark)
    requires Linked(items) && MarksOk(items, t, marks) && (m.Point? ==> Landing(items, m.i) && m.d <= |t|)
    ensures MarksOk(items, t, marks + [m])
    ensures FromStack(items, t, marks + [m]) ==
            if m.Dummy? then FromStack(items, t, marks)
            else Resume(items, t, m.i, m.d, |marks|) + FromStack(items, t, marks)
  {
    var all := marks + [m];
    assert all[..|all| - 1] == marks && all[|all| - 1] == m;
  }

  lemma StepPush(items: seq<Item>, t: Text, i: nat, ph: Phase, d: nat, marks: seq<Mark>)
    requires AtPush(items, i, ph) && Sane(items, t, i, ph, d, marks)
    ensures Landing(items, PushTarget(items, i))
    ensures if |marks| >= MAX_POINTS
            then Rem(items, t, i, ph, d, marks) != [] && Rem(items, t, i, ph, d, marks)[0] == Overflow
            else Moves(items, t, i, ph, d, marks, AfterPush(items, i, ph).0, AfterPush(items, i, ph).1, d,
                       marks + [Point(PushTarget(items, i), d)])
  {
    assert LinkAt(items, i);
    var j := PushTarget(items, i);
    var m := Point(j, d);
    if |marks| >= MAX_POINTS {
      if IsLoop(items, i) { assert Loop(items, t, i, d, |marks|) == [Overflow]; }
      assert Rem(items, t, i, ph, d, marks) == [Overflow] + FromStack(items, t, marks);
    } else {
      var (k, ph') := AfterPush(items, i, ph);
      StackTop(items, t, marks, m);
      RankLaterItem(items, t, i, ph, d, j, Start, d);
      if k > i { RankLaterItem(items, t, i, ph, d, k, ph', d); }
      WeightPush(items, t, i, ph, d, ph', marks, m, k);
      PushKeeps(items, t, i, ph, d, marks);
    }
  }

  lemma PushKeeps(items: seq<Item>, t: Text, i: nat, ph: Phase, d: nat, marks: seq<Mark>)
    requires AtPush(items, i, ph) && Sane(items, t, i, ph, d, marks) && |marks| < MAX_POINTS
    ensures var r, all := AfterPush(items, i, ph), marks + [Point(PushTarget(items, i), d)];
            Sane(items, t, r.0, r.1, d, all) && Rem(items, t, r.0, r.1, d, all) == Rem(items, t, i, ph, d, marks)
  {
    assert LinkAt(items, i);
    var j := PushTarget(items, i);
    var all := marks + [Point(j, d)];
    StackTop(items, t, marks, Point(j, d));
    var below := FromStack(items, t, marks);
    if items[i].Fork? {
      Assoc(Ev(items, t, i + 1, d, |marks| + 1), Resume(items, t, j, d, |marks|), below);
    } else if ph.Succ? {
      if Unit(items[i].piece.atom, t, d) {
        Assoc(Again(items, t, i, ph.c + 1, d + 1, |marks| + 1), Resume(items, t, j, d, |marks|), below);
      }
    } else if Unit(items[i].piece.atom, t, d) {
      if items[i].piece.q.Quest? {
        Assoc(Ev(items, t, i + 1, d + 1, |marks| + 1), Resume(items, t, j, d, |marks|), below);
      } else if PopChosen(items, i) {
        assert all[..|all| - 1] == marks;
        assert Loop(items, t, i, d, |marks|) == Loop(items, t, i, d + 1, |marks|);
        assert Rem(items, t, i, ph, d, marks) == Loop(items, t, i, d, |marks|) + below;
      } else {
        assert Loop(items, t, i, d, |marks|) == Loop(items, t, i, d + 1, |marks| + 1) + Resume(items, t, j, d, |marks|);
        assert Rem(items, t, i, ph, d, marks) == Loop(items, t, i, d, |marks|) + below;
        Assoc(Loop(items, t, i, d + 1, |marks| + 1), Resume(items, t, j, d, |marks|), below);
      }
    } else if IsLoop(items, i) {
      assert Loop(items, t, i, d, |marks|) == Resume(items, t, j, d, |marks|);
      assert Rem(items, t, i, ph, d, marks) == Loop(items, t, i, d, |marks|) + below;
    }
  }

  lemma Assoc(a: seq<Event>, b: seq<Event>, c: seq<Event>)
    ensures (a + b) + c == a + (b + c)
  {
  }

  // dummy_failure_jump of `\+`.
  lemma StepDummy(items: seq<Item>, t: Text, i: nat, d: nat, marks: seq<Mark>)
    requires IsLoop(items, i) && items[i].piece.q.Plus? && Sane(items, t, i, Start, d, marks)
    ensures if |marks| >= MAX_POINTS
            then Rem(items, t, i, Start, d, marks) != [] && Rem(items, t, i, Start, d, marks)[0] == Overflow
            else Moves(items, t, i, Start, d, marks, i, Body, d, marks + [Dummy])
  {
    if |marks| < MAX_POINTS {
      var all := marks + [Dummy];
      assert all[..|all| - 1] == marks;
      StackTop(items, t, marks, Dummy);
      WeightPush(items, t, i, Start, d, Body, marks, Dummy, i);
      if !Unit(items[i].piece.atom, t, d) {
        assert [] + FromStack(items, t, marks) == FromStack(items, t, marks);
      }
    }
  }

  function TopOfLoop(items: seq<Item>, i: nat): Phase
    requires IsLoop(items, i)
  {
    if items[i].piece.q.Plus? then LoopTop else Start
  }

  // The backward jump: pop_failure_jump drops the top of the stack, jump does not.
  lemma StepBack(items: seq<Item>, t: Text, i: nat, d: nat, marks: seq<Mark>)
    requires Sane(items, t, i, Back, d, marks)
    ensures i < |items| && IsLoop(items, i)
    ensures Moves(items, t, i, Back, d, marks, i, TopOfLoop(items, i), d,
                  if PopChosen(items, i) then marks[..|marks| - 1] else marks)
  {
    var rest := if PopChosen(items, i) then marks[..|marks| - 1] else marks;
    var ph := TopOfLoop(items, i);
    Pow3Grows(Rank(items, t, i, ph, d), Rank(items, t, i, Back, d));
    assert StackWeight(items, t, rest) <= StackWeight(items, t, marks);
  }

  // jump_past_alt, and the jump over an atom under `\{0\}`.
  lemma StepForward(items: seq<Item>, t: Text, i: nat, d: nat, marks: seq<Mark>)
    requires Sane(items, t, i, Start, d, marks) && i < |items| && (items[i].Past? || Skipped(items[i]))
    ensures var j := if items[i].Past? then i + items[i].hop else i + 1;
            j <= |items| && Moves(items, t, i, Start, d, marks, j, Start, d, marks)
  {
    assert LinkAt(items, i);
    var j := if items[i].Past? then i + items[i].hop else i + 1;
    RankLaterItem(items, t, i, Start, d, j, Start, d);
    WeightMove(items, t, i, Start, d, j, Start, d, marks);
  }

  // Instructions of an interval that only move the program counter.
  predicate AtCounter(items: seq<Item>, i: nat, ph: Phase) {
    PhaseOk(items, i, ph) && IsCounted(items, i)
    && match ph
       case Start => true
       case SecondSet => true
       case Succ(c) => c < items[i].piece.q.lo
       case NopA(_) => true
       case NopB(_) => true
       case JumpN(_) => true
       case _ => false
  }

  function AfterCounter(items: seq<Item>, i: nat, ph: Phase): (r: (nat, Phase))
    requires AtCounter(items, i, ph)
    ensures PhaseOk(items, r.0, r.1)
  {
    match ph
    case Start => (i, if items[i].piece.q.hi == 1 then Succ(0) else SecondSet)
    case SecondSet => (i, Succ(0))
    case Succ(c) => (i, BodyN(c))
    case NopA(c) => (i, NopB(c))
    case NopB(c) => (i, BodyN(c))
    case JumpN(c) => if c < items[i].piece.q.hi then (i, Succ(c)) else (i + 1, Start)
  }

  lemma StepCounter(items: seq<Item>, t: Text, i: nat, ph: Phase, d: nat, marks: seq<Mark>)
    requires AtCounter(items, i, ph) && Sane(items, t, i, ph, d, marks)
    ensures Moves(items, t, i, ph, d, marks, AfterCounter(items, i, ph).0, AfterCounter(items, i, ph).1, d, marks)
  {
    var (j, ph') := AfterCounter(items, i, ph);
    if j > i { RankLaterItem(items, t, i, ph, d, j, ph', d); }
    WeightMove(items, t, i, ph, d, j, ph', d, marks);
    if ph.Succ? && !Unit(items[i].piece.atom, t, d) {
      assert [] + FromStack(items, t, marks) == FromStack(items, t, marks);
    }
  }

  // `fail:` takes the top of the stack.
  lemma StepFail(items: seq<Item>, t: Text, marks: seq<Mark>)
    requires Linked(items) && MarksOk(items, t, marks) && marks != []
    ensures var (rest, top) := (marks[..|marks| - 1], marks[|marks| - 1]);
            && MarksOk(items, t, rest) && StackWeight(items, t, rest) <= StackWeight(items, t, marks)
            && if top.Dummy? || Dropped(items, top.i) then FromStack(items, t, marks) == FromStack(items, t, rest)
               else && Sane(items, t, top.i, Start, top.d, rest)
                    && Rem(items, t, top.i, Start, top.d, rest) == FromStack(items, t, marks)
                    && Weight(items, t, top.i, Start, top.d, rest) == StackWeight(items, t, marks)
  {
    var (rest, top) := (marks[..|marks| - 1], marks[|marks| - 1]);
    if top.Point? && Dropped(items, top.i) {
      assert [] + FromStack(items, t, rest) == FromStack(items, t, rest);
    }
  }
}
